# nv_clipboard clipboard manager in Dafny

This project models the clipboard manager of the nv_clipboard plugin for
novelibre. The manager does cut, copy and paste of novel-tree elements
(chapters, sections, stages, plot lines, plot points, characters,
locations, items, project notes) through one text slot of the clipboard.
The transfer format is an XML fragment.

- **Copy** takes the node selected in the tree. It finds the node's kind
  from the first two characters of its id, looks the element up in that
  kind's container, and lets the element write itself into an XML element
  whose root tag is that two-letter prefix. It then removes the reference
  children (`Characters`, `Locations`, `Items`, `PlotlineNotes`, `Sections`,
  `Section`) and makes the fragment the clipboard's only content.
- **Cut** refuses when the model is locked or nothing is selected. Otherwise
  it copies the node without a filter. If that works, it moves the selection
  to the node's previous sibling, or to its parent when there is no previous
  sibling, and only then deletes the node.
- **Paste** refuses when the model is locked, nothing is selected, or the
  clipboard holds no parsable fragment. It applies the optional filter to
  the root tag and picks a creation operation from that tag. A section goes
  to `add_stage` when `int(type)` is above 1, and to `add_section`
  otherwise. Paste then creates the element with the selected node as target,
  loads it from the fragment, refreshes the views and selects it.

Modules, one per file:

- `Options` (options.dfy): the Option type.
- `Xml` (xml.dfy): XML fragments as values (`XNode`) and a mutable
  ElementTree element (`XmlElement`). It also holds the specification of
  reference stripping (`Without`, `Stripped`) and its properties.
- `IntText` (int_text.dfy): Python's `int()` applied to text, as used on the
  `type` attribute.
- `Novel` (novel.dfy): the eight kinds and their id prefixes, copy's
  prefix→container table, paste's tag→(creator, container) table with the
  section/stage rule, and an element's XML form (`ToXml`, `FromXml`).
- `Transfer` (transfer.dfy): what each of the three operations decides, as
  functions of the state it reads (`PlanCopy`, `PlanCut`, `PlanPaste`), with
  lemmas about those decisions.
- `Clipboard` (clipboard_manager.dfy): the class `ClipboardManager`.
  - Its methods carry the operations out step by step, as the source does.
  - Each method is proved to follow its plan.
  - Every state-changing call on a collaborator (go_to_node,
    delete_element, the creators, from_xml, refresh_views) is appended to
    `log`, so the order of those calls is part of each method's contract.

The manager's outcomes are `Break` (the source returns `'break'`),
`Nothing` (it returns `None`) and `Raised(KeyError | ValueError)` (it lets
an exception escape). The source raises in two places, and both escape
before anything has changed:
- copying a node whose id has a known prefix but is missing from its
  container (clipboard_manager.py:69);
- pasting a section whose `type` is not an integer, or is one of more
  than 4300 digits (clipboard_manager.py:102).

Three more points of the code that the model keeps:
- The root tag of a fragment is the node prefix (`ch`, `sc`, …).
- A node missing from its container raises KeyError
  (clipboard_manager.py:69); nothing catches it.
- Only the selected element itself is serialised, and paste creates
  exactly one element.

The prefix values (`ch`, `sc`, `ac`, `ap`, `cr`, `lc`, `it`, `pn`) are
novxlib's `*_PREFIX` constants. novxlib is not part of this model. The
proofs depend only on these being eight distinct two-character strings.

## Model

| member | source | states |
|---|---|---|
| Clipboard.ClipboardManager.constructor | src/nvclipboardlib/clipboard_manager.py:21-24 | the manager starts from the given lock, selection, tree links, clipboard and containers, with an empty log of calls |
| Clipboard.ClipboardManager.CopyElement | src/nvclipboardlib/clipboard_manager.py:45-78 | copy follows `PlanCopy`. When it gives up (returns None or raises KeyError), the clipboard is unchanged. On success it returns 'break' and the clipboard holds exactly the one fragment. `PlanCopy` takes no lock, so the lock plays no part in copy. The method may modify only the clipboard, so the model, selection and log stay untouched. |
| Clipboard.ClipboardManager.CutElement | src/nvclipboardlib/clipboard_manager.py:26-43 | cut follows `PlanCut`. When it stops (locked, nothing selected, or the unfiltered copy stops), it returns None, or in the last case what copy returned (None or KeyError), and changes nothing. On success, the clipboard holds the node's fragment, the selection is the fallback node, and the log gains exactly go_to_node(fallback) followed by one delete_element(node). The filter argument has no effect. |
| Clipboard.ClipboardManager.PasteElement | src/nvclipboardlib/clipboard_manager.py:80-129 | paste follows `PlanPaste`. On every refusal, and when the creator answers a falsy id, selection, containers and log are unchanged. The creator's answer must be a fresh id, as the source's creators return. On success, the new id's entry in the route's container is the element loaded from the fragment, and every element the novel held before is still there, unchanged. The log gains create, from_xml, refresh_views and go_to_node in that order, the new node is selected and the result is 'break'. The clipboard and the lock are never changed. |
| Clipboard.ClipboardManager.CreateAndLoad | src/nvclipboardlib/clipboard_manager.py:122-129 | paste's last steps: a creator answering "" leaves selection, containers and log unchanged and gives None; a fresh id gets the element loaded from the fragment in the route's container, every earlier element stays unchanged, the log gains create, from_xml, refresh_views and go_to_node in that order, and the new node is selected |
| Clipboard.ClipboardManager.ChooseCreator | src/nvclipboardlib/clipboard_manager.py:100-120 | the dispatch on the root tag agrees with `RouteOf`, and the container it chooses is the one whose prefix is the tag |
| Clipboard.ClipboardManager.RemoveReferences | src/nvclipboardlib/clipboard_manager.py:131-142 | the nested loop (for each reference tag, findall and then remove each match) leaves exactly `Stripped` of the old children. Tag and attributes are untouched. |
| Clipboard.ClipboardManager.GoToNode | src/nvclipboardlib/clipboard_manager.py:39-41 | go_to_node selects exactly the given node and is logged |
| Clipboard.ClipboardManager.DeleteElement | src/nvclipboardlib/clipboard_manager.py:42 | delete_element removes the node from every container and is logged |
| Clipboard.ClipboardManager.CreateElement | src/nvclipboardlib/clipboard_manager.py:122-124 | a creator answering "" changes nothing. Any other answer must be an id the container does not hold yet; it becomes the id of a new blank element in the route's container, and the call is logged with its target. |
| Clipboard.ClipboardManager.LoadElement | src/nvclipboardlib/clipboard_manager.py:126 | from_xml replaces the new element's content with what the fragment describes and is logged |
| Clipboard.ClipboardManager.RefreshViews | src/nvclipboardlib/clipboard_manager.py:127 | refresh_views is logged and changes nothing else |
| Xml.XmlElement.Remove | src/nvclipboardlib/clipboard_manager.py:142 | ElementTree's remove takes out the first equal child and nothing else |
| Xml.Without | src/nvclipboardlib/clipboard_manager.py:131-142 | no child that is left has a removed tag, and every child that is left was a child before |
| Xml.FindAll | src/nvclipboardlib/clipboard_manager.py:141 | findall yields only children carrying the tag |
| Xml.RemoveFirst | src/nvclipboardlib/clipboard_manager.py:142 | removing a child shortens the list by one and drops exactly one copy of it from the multiset of children |
| Xml.RemoveFirstMatch | src/nvclipboardlib/clipboard_manager.py:140-142 | removing the first match moves findall on to the next match and keeps every other child in place |
| Xml.WithoutAbsent | src/nvclipboardlib/clipboard_manager.py:141-142 | once findall finds nothing, no child of that tag remains to remove |
| Xml.WithoutStep | src/nvclipboardlib/clipboard_manager.py:140 | removing the reference tags one after another equals removing them all at once |
| Xml.WithoutAppend | src/nvclipboardlib/clipboard_manager.py:131-142 | the children that stay keep their original order |
| Xml.WithoutKeeps | src/nvclipboardlib/clipboard_manager.py:131-142 | every child whose tag is not a reference stays, as often as it occurred |
| Xml.WithoutClean | src/nvclipboardlib/clipboard_manager.py:131-142 | a child list without references is left unchanged |
| Xml.StrippedIdempotent | src/nvclipboardlib/clipboard_manager.py:131-142 | stripping references twice equals stripping once |
| IntText.ParseShowRoundTrip | src/nvclipboardlib/clipboard_manager.py:102 | `int(str(i)) == i` for every integer i of at most 4300 digits (CPython's default `sys.int_max_str_digits`) |
| IntText.ParseShowTooLong | src/nvclipboardlib/clipboard_manager.py:102 | `int(str(i))` raises ValueError for every integer i of more than 4300 digits |
| IntText.TrimLeft | src/nvclipboardlib/clipboard_manager.py:102 | `int()` drops leading white space: the result is a suffix of the text, everything dropped is white space, and the result does not start with white space |
| IntText.TrimRight | src/nvclipboardlib/clipboard_manager.py:102 | `int()` drops trailing white space: the result is a prefix of the text, everything dropped is white space, and the result does not end with white space |
| IntText.Strip | src/nvclipboardlib/clipboard_manager.py:102 | the stripped text is no longer than the text and neither starts nor ends with white space |
| IntText.StripSlice | src/nvclipboardlib/clipboard_manager.py:102 | what `int()` reads is one contiguous slice of the text, and everything before and after that slice is white space |
| IntText.ParseInt | src/nvclipboardlib/clipboard_manager.py:102 | `int(typeStr)`: an accepted text, once stripped, ends in a digit, and a negative value comes only from text starting with `-`; unsigned digits numbering more than 4300 (underscores not counted) make it raise ValueError, whatever the digits are |
| IntText.ParseIntRejectsOtherText | src/nvclipboardlib/clipboard_manager.py:102 | text holding an ASCII character other than ASCII white space, a sign, an ASCII digit or an underscore makes `int` raise ValueError |
| IntText.DigitsValueShowNat | src/nvclipboardlib/clipboard_manager.py:102 | the digits of a natural number read back as that number |
| Novel.PrefixesDistinct | src/nvclipboardlib/clipboard_manager.py:9-16 | every kind's prefix has two characters and no two kinds share one |
| Novel.NodePrefix | src/nvclipboardlib/clipboard_manager.py:51 | `node[:2]` is a prefix of the id, two characters long, or the whole id when the id is shorter |
| Novel.ElementContainersExact | src/nvclipboardlib/clipboard_manager.py:56-67 | copy's table holds exactly the eight prefixes, and each leads to the container of its own kind (both directions) |
| Novel.ElementControlsExact | src/nvclipboardlib/clipboard_manager.py:108-118 | paste's table holds every prefix except the section's, and each leads to the creator and container of its own kind |
| Novel.RouteOfMatchesTag | src/nvclipboardlib/clipboard_manager.py:95-120 | paste recognises exactly the eight tags copy emits. It raises only for a section whose type is not an integer. The chosen container's prefix is the tag. |
| Novel.StageIffTypeAboveOne | src/nvclipboardlib/clipboard_manager.py:100-106 | a section goes to add_stage iff int(type) > 1 and to add_section iff int(type) <= 1; a missing type counts as 0 |
| Novel.WrittenTypeDecidesStage | src/nvclipboardlib/clipboard_manager.py:101-106 | a section written with `type="n"`, n of at most 4300 digits, becomes a stage exactly when n > 1 |
| Novel.OverlongTypeRaises | src/nvclipboardlib/clipboard_manager.py:101-102 | a section whose `type` is written with more than 4300 digits makes paste raise ValueError |
| Novel.TypeValue | src/nvclipboardlib/clipboard_manager.py:101-102 | `int(xmlElement.get('type', 0))`: a missing `type` reads as 0, and only a written `type` can raise ValueError |
| Novel.RouteOf | src/nvclipboardlib/clipboard_manager.py:100-120 | paste's dispatch: it raises only for the section tag, and a routed tag is one of copy's eight prefixes and goes to that prefix's container |
| Novel.FromXml | src/nvclipboardlib/clipboard_manager.py:126 | from_xml keeps all the fragment carries: the fragment is its tag together with the loaded element's attributes and children |
| Xml.XmlElement.constructor | src/nvclipboardlib/clipboard_manager.py:70 | `ET.Element(nodePrefix)` has the given tag, no attributes and no children |
| Xml.Stripped | src/nvclipboardlib/clipboard_manager.py:131-142 | what `_remove_references` leaves: no child has a reference tag, and every child left was a child before, and the list does not grow |
| Novel.ToXml | src/nvclipboardlib/clipboard_manager.py:71 | to_xml adds the element's attributes and children to the XML element and keeps its tag |
| Transfer.Serialise | src/nvclipboardlib/clipboard_manager.py:70-72 | the fragment copy builds for an element: its root tag leads back to the element's kind in copy's table, and no direct child has a reference tag |
| Transfer.PlanCopy | src/nvclipboardlib/clipboard_manager.py:45-78 | what copy decides, in the source's order (selection, filter, prefix table, container lookup). It stops only with None or KeyError; when it copies, the node is the first selected one, it is in its kind's container, and the fragment's tag is the node's prefix and passes the filter. |
| Transfer.PlanCut | src/nvclipboardlib/clipboard_manager.py:26-43 | what cut decides, in the source's order (lock, selection, unfiltered copy). It stops only with None or KeyError; when it moves, the node is the first selected one and the target is its prev or its parent. |
| Transfer.PlanPaste | src/nvclipboardlib/clipboard_manager.py:80-129 | what paste decides, in the source's order (lock, selection, clipboard, filter, dispatch). It stops only with None or ValueError; when it creates, the target is the first selected node, the fragment is the clipboard's, it passes the filter, and the container is the one copy's table gives for its tag. |
| Transfer.Erased | src/nvclipboardlib/clipboard_manager.py:42 | after deletion no container holds the node and every other entry stays |
| Transfer.CopyFailures | src/nvclipboardlib/clipboard_manager.py:46-69 | copy returns None exactly when nothing is selected, the filter rejects the prefix or the prefix is unknown. It raises KeyError exactly when the node is missing from its container. Nothing else makes it stop. |
| Transfer.CopyFragment | src/nvclipboardlib/clipboard_manager.py:69-76 | on success the fragment belongs to the selected node. Its root tag is the node's prefix. It carries the element's attributes and the element's children in order, with the references removed. No direct child has a reference tag. |
| Transfer.CutRefusals | src/nvclipboardlib/clipboard_manager.py:27-36 | cut neither moves nor deletes exactly when the model is locked, nothing is selected or the unfiltered copy fails. In the last case cut returns what copy returned. |
| Transfer.CutTarget | src/nvclipboardlib/clipboard_manager.py:31-42 | a successful cut deletes the originally selected node. The selection moves to prev(node) when that is non-empty, otherwise to parent(node). The clipboard gets what an unfiltered copy would put there. |
| Transfer.PasteFailures | src/nvclipboardlib/clipboard_manager.py:81-118 | paste returns None exactly when the model is locked, nothing is selected, the clipboard holds no parsable fragment, the filter rejects the tag, or the tag is not one of the eight. It raises ValueError exactly for a section whose type is not an integer. |
| Transfer.PasteCreation | src/nvclipboardlib/clipboard_manager.py:100-122 | paste creates with the selected node as target, in the container of the tag's kind. The creator is add_stage iff the tag is the section prefix and int(type) > 1; otherwise it is the tag's own kind's creator. |
| Transfer.CopyThenPaste | src/nvclipboardlib/clipboard_manager.py:45-129 | whatever copy puts on the clipboard, paste accepts, with or without a filter naming the prefix, unless it is a section whose type is not an integer. The new element goes to the container the copied one came from. It has the copied element's attributes and its non-reference children. Copying it again yields the same fragment. |
| Transfer.CopiedSectionWithBadType | src/nvclipboardlib/clipboard_manager.py:100-102 | a copied section whose type is not an integer makes paste raise ValueError |

## Left out

- The tkinter plugin wiring is not part of this model: toolbar buttons, icons, key bindings, tooltips, the help page, and enabling or disabling on lock. So are the platform key tables, the locale set-up and the build script.
- The `event` argument of the three operations is dropped. Only `elemPrefix` is modelled, as `filter`.
- ElementTree's `tostring`/`fromstring` and Tk's clipboard text are modelled by `ClipText`. `Fragment(x)` is text that parses back to `x`; `Unparsable` is text that does not parse. The model assumes the textual round trip is exact.
- `XNode` carries a tag, attributes and child elements, but no element text and no tail. The contents of children such as `<Title>…</Title>` are not modelled, so the exact round trip above and `CopyThenPaste`'s "non-reference children" cover tags, attributes and structure only.
- `clipboard_clear` followed by `clipboard_append` is modelled as replacing the clipboard's content. `root.update()` has no modelled effect.
- The novel's elements are modelled by the attributes and children their XML form carries. novxlib's real `to_xml` and `from_xml` are not part of this model. The containers hold values, so aliasing between an element and its container entry is not captured.
- The host's operations are modelled minimally:
  - A creator's answer is a parameter (`created`). A non-empty answer is required to be an id no container holds yet, and stands for a new blank element in the chosen container. The creator's placement rules are not modelled.
  - `delete_element` removes only the node itself from the containers. The subtree and the tree links are not touched.
  - `go_to_node` only sets the selection.
  - `refresh_views` is only logged.
- Clipboard.ClipboardManager.LoadElement: requires the new id to be in its container. The source would raise KeyError otherwise, but the modelled creator always inserts the element, so that KeyError cannot happen here.
- The tree's `prev` and `parent` links are maps, and an id they do not hold reads as "" (no such node). Tk would raise for an unknown id. Only the first selected node is used, as in the source.
- ElementTree's `remove` finds the child by identity; the model finds it by value. Every child with a reference tag is removed either way, so the result is the same.
- IntText.ParseInt models ASCII white space, one sign, ASCII digits and single underscores between digits. Python's `int()` also accepts other Unicode white space and Unicode decimal digits.
- IntText.ParseInt rejects text of more than 4300 digits, the default digit limit of CPython 3.11 and later and of the patched 3.7–3.10 releases. Older interpreters have no limit, and a limit changed through `sys.set_int_max_str_digits` is not modelled.
- IntText.ShowInt writes any integer. Python's `str()` refuses above the same digit limit; the lemmas that use `ShowInt` stay within it or state the rejection.
- The `locked` field stands for the answer of the controller's `check_lock()` (clipboard_manager.py:27, :81). The model treats that call as reading a flag; what `check_lock()` itself does is not modelled.
