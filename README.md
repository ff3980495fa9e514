# svgSalamander element layer in Dafny

This project models the element-tree and attribute layer of svgSalamander's
`SVGElement` and the plain tree node `NonSVGElement`, and proves properties
about the model.

- **The tree.**
  - An `Element` has a `children` list and a `parent` link.
  - `getPath`, `getChild`, `indexOfChild`, `swapChildren`, `removeChild`,
    `loaderAddChild` and `setDiagram` are modelled.
  - `setDiagram` hands the diagram to a whole subtree and registers every
    node in the diagram's id registry.
- **The two attribute tiers.**
  - The inline style tier (`inlineStyles`, selector AT_CSS) and the
    presentation tier (`presAttribs`, AT_XML) are separate maps.
  - `addAttribute`, `setAttribute`, `hasAttribute`, `removeAttribute` and
    the raw `getStyleAbsolute` / `getPresAbsolute` reads are modelled.
  - Changing the `id` attribute retargets the id registry.
- **The parent-context override stack.** `pushParentContext`,
  `popParentContext` and `getParentContext` are modelled.
- **The style cascade.** `getStyle` in its three overloads and `getPres`.
- **Loading and rebuilding.**
  - `loaderStartElement`.
  - `build`, which refreshes the id, class and `xml:base` of every node of
    a subtree from its presentation tier.
  - `getRoot` and `getXMLBase`.
- **`NonSVGElement`.** Its getters and setters, `addChild`, `getChildren`
  and `getAttributes`.

## Structure

- **`svg_types.dfy`** (`SvgTypes`):
  - nullable references as `Option`;
  - the tier selector `AttribType` (`Css`, `Xml`, `Auto`, and `Other` for
    any other integer code);
  - the exceptions as `Error`;
  - `Result` and `Outcome` for calls that may throw;
  - `Lookup`: the boolean a style query returns, together with the string
    it leaves in the caller's cell.
- **`list_ops.dfy`** (`ListOps`): the `ArrayList` operations the layer
  relies on: `indexOf`, `remove(Object)`, and the two-position exchange.
- **`id_registry.dfy`** (`IdRegistry`): the diagram's id → element map,
  with one retarget (remove, then set) and the registrations `setDiagram`
  makes over a subtree.
- **`attribute_list.dfy`** (`AttributeList`): the SAX attribute list as
  (qualified name, value) pairs, and the copy of it into the presentation
  tier.
- **`node_maps.dfy`** (`NodeMaps`): one field of every node of a subtree
  set to one value.
- **`build_plan.dfy`** (`BuildPlan`): `build()` as a function on values.
  - Per node, `Refresh` takes each field whose update is present.
  - `Step` applies one node's update to the registry and the fields.
  - `Walk` applies the updates to a subtree in visiting order.
- **`svg_element.dfy`** (`SvgElement`):
  - the classes `Element`, `Diagram`, `StyleAttribute` and `ElementList` (a caller's list);
  - the cascade as the function `Style`, which the `GetStyle` methods are
    proved against;
  - the walk orders used by `setDiagram` and `build`.
- **`element_lemmas.dfy`** (`ElementLemmas`): properties over parent
  chains, subtrees and the cascade.
- **`non_svg_element.dfy`** (`NonSvg`): `NonSVGElement`, the caller's
  list, and the shared attribute map.

### How the model represents the source

- **Tiers hold string values, not `StyleAttribute` objects.**
  - `setAttribute` replaces the value stored under the name.
  - A query writes into a `StyleAttribute` cell supplied by the caller.
- **Animation.**
  - The track manager is a set of `(attribute name, tier)` keys.
  - Evaluating a track is an oracle, `TrackEval`. It receives the element,
    the name, the tier and the base value already in the cell, and stands
    for the track and the universe clock.
- **Style sheets.**
  - The style sheet of an `SVGRoot` is an oracle from (name, tag, class)
    to an optional value.
  - `isSvgRoot` marks the elements whose `getRoot()` returns themselves:
    that is the override in `SVGRoot`.
  - `animates` marks an `AnimationElement` child and names the track key
    it adds.
- **Parsing oracles.** `XMLParseUtil.parseStyle` and `new URI(...)` are
  passed in as the functions `parseStyle` and `parseUri`.
- **Termination witnesses.** Walks up the parent links terminate because
  of a ghost `rank`: every parent, and every context-stack top, ranks
  strictly below the node. Walks down the children terminate because of a
  ghost `height`: every child is lower than its parent.

### Quirks of the code that the model keeps

- **The ancestor step evaluates animation.** An unresolved recursive
  `getStyle` continues through `getStyle(attrib, true)`, which evaluates
  animation whatever the caller asked for (`SVGElement.java:648`, `652`,
  `564`). `ElementLemmas.AncestorEvaluatesAnimation` states this.
- **`addAttribute` is not atomic.** With `AT_AUTO` and the name `"id"`,
  `addAttribute` retargets the registry and the `id` field and then throws
  "Invalid attribute type" (`SVGElement.java:302-322`).
  `SvgElement.Element.AddAttribute` states this.
- **`getRoot()`** of a parentless element that is not an `SVGRoot` is
  `null`.
- **`setDiagram` registers every node under its id, a null id included.**
  So one node with a null id occupies the null key.
- **`removeChild` leaves the removed child's `parent` link as it was.**
- **`NonSVGElement.addChild` does not set the child's parent.**

## Model

| member | source | states |
|---|---|---|
| SvgElement.Element.constructor | svg-core/src/main/java/com/kitfox/svg/SVGElement.java:109-124 | id, class and parent come from the arguments; the tiers, children, tracks and context stack are empty, with no diagram and no base URI |
| SvgElement.ElementList.Add | svg-core/src/main/java/com/kitfox/svg/SVGElement.java:153 | add appends the element after the list's old contents |
| SvgElement.ElementList.AddAll | svg-core/src/main/java/com/kitfox/svg/SVGElement.java:171 | addAll appends the elements in order after the list's old contents |
| SvgElement.Element.GetChildren | svg-core/src/main/java/com/kitfox/svg/SVGElement.java:164-174 | given null, returns a fresh list holding the children in order; otherwise returns the caller's list, appended in place, with its old contents as a prefix and the children after them |
| SvgElement.Element.GetChild | svg-core/src/main/java/com/kitfox/svg/SVGElement.java:180-191 | null exactly when no immediate child has a non-null id equal to the argument; otherwise returns the first such child |
| SvgElement.Element.IndexOfChild | svg-core/src/main/java/com/kitfox/svg/SVGElement.java:199-202 | -1 exactly when the child is absent; otherwise the first position that holds it |
| SvgElement.Element.GetPath | svg-core/src/main/java/com/kitfox/svg/SVGElement.java:142-156 | given null, returns a fresh list holding the nodes from the root down to this one; otherwise returns the caller's list, appended in place by the parent's call and then by this node, with its old contents as a prefix |
| SvgElement.PathToRoot | svg-core/src/main/java/com/kitfox/svg/SVGElement.java:142-156 | the path starts at a parentless node, ends at the element, and links each node to its parent just before it |
| ElementLemmas.PathLength | svg-core/src/main/java/com/kitfox/svg/SVGElement.java:142-156 | getPath's path has one node per parent hop, plus the element itself |
| ElementLemmas.PathUnique | svg-core/src/main/java/com/kitfox/svg/SVGElement.java:142-156 | any list that starts parentless, links each node to its parent before it, and ends at the element is getPath's path |
| SvgElement.Element.SwapChildren | svg-core/src/main/java/com/kitfox/svg/SVGElement.java:211-222 | an out-of-range index changes nothing; otherwise the two children trade places and the subtree is rebuilt in its new preorder |
| ListOps.Swapped | svg-core/src/main/java/com/kitfox/svg/SVGElement.java:218-220 | positions i and j hold each other's elements, every other position is unchanged, and the length is the same |
| ListOps.SwappedIsPermutation | svg-core/src/main/java/com/kitfox/svg/SVGElement.java:218-220 | the swap keeps the multiset of children |
| ListOps.SwappedTwice | svg-core/src/main/java/com/kitfox/svg/SVGElement.java:211-222 | swapping the same pair twice restores the original order |
| SvgElement.Element.RemoveChild | svg-core/src/main/java/com/kitfox/svg/SVGElement.java:385-393 | an absent child fails with NotAChild and changes nothing; otherwise the first occurrence of the child is removed |
| ListOps.IndexOf | svg-core/src/main/java/com/kitfox/svg/SVGElement.java:201 | ArrayList.indexOf: -1 exactly when the element is absent; otherwise the first position that holds it |
| ListOps.RemoveFirst | svg-core/src/main/java/com/kitfox/svg/SVGElement.java:392 | ArrayList.remove(Object): one element shorter exactly when the element is present, and it holds nothing the list did not |
| ListOps.RemoveFirstCutsFirstOccurrence | svg-core/src/main/java/com/kitfox/svg/SVGElement.java:392 | removal cuts out exactly the first occurrence; the elements before and after it keep their order |
| ListOps.RemoveFirstMultiset | svg-core/src/main/java/com/kitfox/svg/SVGElement.java:392 | exactly one copy of the child is removed, and nothing else |
| ListOps.RemoveFirstAbsent | svg-core/src/main/java/com/kitfox/svg/SVGElement.java:392 | removing an absent element leaves the list unchanged |
| SvgElement.Element.ParentContext | svg-core/src/main/java/com/kitfox/svg/SVGElement.java:488-491 | null exactly when the stack is empty; otherwise the element pushed last |
| SvgElement.Element.PushParentContext | svg-core/src/main/java/com/kitfox/svg/SVGElement.java:478-481 | the context goes on top of the stack |
| SvgElement.Element.PopParentContext | svg-core/src/main/java/com/kitfox/svg/SVGElement.java:483-486 | returns the top and removes it; an empty stack throws NoSuchElement |
| SvgElement.Element.HasAttribute | svg-core/src/main/java/com/kitfox/svg/SVGElement.java:325-338 | membership in the selected tier; AUTO means either tier; an unknown code throws |
| ElementLemmas.HasAttributeAuto | svg-core/src/main/java/com/kitfox/svg/SVGElement.java:333-334 | hasAttribute(AUTO) is the disjunction of the CSS and XML answers |
| SvgElement.Element.SetTarget | svg-core/src/main/java/com/kitfox/svg/SVGElement.java:517-546 | the entry setAttribute updates: the selected tier's entry, or for AUTO the inline entry before the presentation one; an absent entry is AttributeMissing, an unknown code InvalidAttributeType |
| SvgElement.Element.AddAttribute | svg-core/src/main/java/com/kitfox/svg/SVGElement.java:294-323 | an existing name or an unknown code throws and changes nothing; for "id" the registry and the id are retargeted; the value is added to the selected tier, or the call throws after the retarget when the selector is AUTO |
| IdRegistry.Reassign | svg-core/src/main/java/com/kitfox/svg/SVGElement.java:304-308 | removeElement(oldId) then setElement(newId, node): the ids are the old ones without oldId, plus newId, which leads to the node |
| IdRegistry.ReassignEffect | svg-core/src/main/java/com/kitfox/svg/SVGElement.java:304-308 | after remove-then-set, the new id leads to the node, the old id leads nowhere, and every other entry is unchanged |
| IdRegistry.ReassignLeavesOneEntry | svg-core/src/main/java/com/kitfox/svg/SVGElement.java:304-308 | a node registered only under its old id ends up registered only under its new id |
| SvgElement.Element.SetAttribute | svg-core/src/main/java/com/kitfox/svg/SVGElement.java:512-560 | only an existing entry is changed, and only its value; for "id" the registry and the id are retargeted; neither tier's key set changes |
| SvgElement.Element.RemoveAttribute | svg-core/src/main/java/com/kitfox/svg/SVGElement.java:282-292 | the name leaves the CSS tier or the XML tier as selected; for any other code nothing changes |
| SvgElement.Element.InlineAttributes | svg-core/src/main/java/com/kitfox/svg/SVGElement.java:343-346 | the names for which getStyleAbsolute answers |
| SvgElement.Element.PresentationAttributes | svg-core/src/main/java/com/kitfox/svg/SVGElement.java:351-354 | the names for which getPresAbsolute answers |
| SvgElement.Element.StyleAbsolute | svg-core/src/main/java/com/kitfox/svg/SVGElement.java:666-670 | the raw inline entry, present exactly when the name is in the inline tier |
| SvgElement.Element.PresAbsolute | svg-core/src/main/java/com/kitfox/svg/SVGElement.java:712-716 | the raw presentation entry, present exactly when the name is in the presentation tier |
| SvgElement.Element.SetDiagram | svg-core/src/main/java/com/kitfox/svg/SVGElement.java:376-383 | every node of the subtree, and only those, now refers to the diagram; every node is registered under its id in preorder; the tree and ids are unchanged |
| SvgElement.Element.AttachSelf | svg-core/src/main/java/com/kitfox/svg/SVGElement.java:378-379 | the node takes the diagram and is registered under its id; the tree and the ids are unchanged |
| IdRegistry.Register | svg-core/src/main/java/com/kitfox/svg/SVGElement.java:376-383 | setElement(id, node) for each visited node in order, null ids included; no id is removed |
| NodeMaps.Mark | svg-core/src/main/java/com/kitfox/svg/SVGElement.java:378-381 | setting one field on the visited nodes keeps the set of nodes |
| NodeMaps.MarkAppend | svg-core/src/main/java/com/kitfox/svg/SVGElement.java:380-382 | marking a node and then its children's subtrees marks their concatenation |
| IdRegistry.RegisterAppend | svg-core/src/main/java/com/kitfox/svg/SVGElement.java:379-382 | registering a node and then its children's subtrees registers their concatenation |
| IdRegistry.RegisterKeys | svg-core/src/main/java/com/kitfox/svg/SVGElement.java:376-383 | after setDiagram the registry's ids are the old ids plus the visited nodes' ids: nothing is removed |
| IdRegistry.RegisterContents | svg-core/src/main/java/com/kitfox/svg/SVGElement.java:376-383 | after setDiagram, every visited id leads to a visited node that carries it; ids nobody visited keep their entries |
| IdRegistry.RegisterDistinct | svg-core/src/main/java/com/kitfox/svg/SVGElement.java:376-383 | when the subtree's ids are pairwise different, each node is registered under its own id |
| ElementLemmas.OrderCoversChildren | svg-core/src/main/java/com/kitfox/svg/SVGElement.java:380-382 | the preorder of a subtree visits every child of its root |
| ElementLemmas.OrderAllCovers | svg-core/src/main/java/com/kitfox/svg/SVGElement.java:451-455 | the walk over a children list visits each child |
| SvgElement.Order | svg-core/src/main/java/com/kitfox/svg/SVGElement.java:376-383 | the visit of a subtree starts at its root and stays within the nodes of the tree |
| SvgElement.Element.LoaderAddChild | svg-core/src/main/java/com/kitfox/svg/SVGElement.java:363-374 | the child is appended and this becomes its parent; its subtree gets this node's diagram and is registered in preorder; an animation child adds its track key |
| SvgElement.Element.LoaderIdentify | svg-core/src/main/java/com/kitfox/svg/SVGElement.java:237-245 | parent and diagram are taken; the id attribute becomes the id; a non-empty id is registered |
| SvgElement.Element.LoaderClassAndStyle | svg-core/src/main/java/com/kitfox/svg/SVGElement.java:247-257 | an empty class counts as none; a style attribute is parsed into the inline tier |
| SvgElement.Element.LoaderBase | svg-core/src/main/java/com/kitfox/svg/SVGElement.java:259-269 | a non-empty xml:base becomes the base URI; one that does not parse fails with MalformedUri and leaves the base unchanged |
| SvgElement.Element.CopyAttributes | svg-core/src/main/java/com/kitfox/svg/SVGElement.java:271-279 | every attribute, id, class and style included, is put into the presentation tier in document order |
| AttributeList.PutAll | svg-core/src/main/java/com/kitfox/svg/SVGElement.java:271-279 | presAttribs.put(name, value) for each attribute in document order; no entry is removed |
| AttributeList.PutAllContents | svg-core/src/main/java/com/kitfox/svg/SVGElement.java:271-279 | after the copy each attribute name holds the value of its last occurrence, and every other entry is unchanged |
| AttributeList.ValueOf | svg-core/src/main/java/com/kitfox/svg/SVGElement.java:240 | Attributes.getValue(qName): an answer is the value of an attribute with that name |
| AttributeList.ValueOfFirst | svg-core/src/main/java/com/kitfox/svg/SVGElement.java:240 | getValue(name) is null exactly when no attribute has the name; otherwise it is the value of the first attribute that has it |
| SvgElement.Element.LoaderStartElement | svg-core/src/main/java/com/kitfox/svg/SVGElement.java:234-280 | all of loaderStartElement's effects together; a malformed xml:base stops it before the copy into the presentation tier |
| SvgElement.Element.Build | svg-core/src/main/java/com/kitfox/svg/SVGElement.java:427-456 | registry and fields are the walk of the update steps over the subtree's preorder, with updates taken from the presentation tiers; the tree and the tiers are unchanged |
| SvgElement.Element.BuildWalk | svg-core/src/main/java/com/kitfox/svg/SVGElement.java:427-456 | the node's own step followed by the walk over its children is the walk over its subtree's preorder, with the tiers' updates computed before it starts |
| SvgElement.Element.BuildChildren | svg-core/src/main/java/com/kitfox/svg/SVGElement.java:450-455 | the loop over the children walks their subtrees one after the other, in list order |
| SvgElement.Element.BuildChild | svg-core/src/main/java/com/kitfox/svg/SVGElement.java:450-455 | one turn of the loop appends the walk of child `i`'s subtree to the walk so far |
| SvgElement.Element.BuildOwn | svg-core/src/main/java/com/kitfox/svg/SVGElement.java:429-448 | the node's own part of build is one update step on the registry and the fields |
| SvgElement.Element.ApplyUpdate | svg-core/src/main/java/com/kitfox/svg/SVGElement.java:431-448 | an id that differs replaces the old one in the field and in the registry; a class or base that is present replaces the current one |
| SvgElement.UpdateFor | svg-core/src/main/java/com/kitfox/svg/SVGElement.java:431-447 | build's three getPres queries: the id, the class and the base are present exactly when getPres finds them, the id and class hold getPres's value, and the base is that value read as a URI |
| SvgElement.TargetIn | svg-core/src/main/java/com/kitfox/svg/SVGElement.java:431-433 | present exactly when getPres finds the name, and then holds the value getPres finds |
| BuildPlan.Refresh | svg-core/src/main/java/com/kitfox/svg/SVGElement.java:431-448 | each field whose update is present takes it, and every other field is kept |
| BuildPlan.Step | svg-core/src/main/java/com/kitfox/svg/SVGElement.java:429-448 | one node's update keeps the set of nodes |
| BuildPlan.Walk | svg-core/src/main/java/com/kitfox/svg/SVGElement.java:427-456 | a whole build keeps the set of nodes |
| BuildPlan.RefreshIdempotent | svg-core/src/main/java/com/kitfox/svg/SVGElement.java:431-448 | applying the same update twice is applying it once |
| BuildPlan.WalkAppend | svg-core/src/main/java/com/kitfox/svg/SVGElement.java:450-455 | building a node and then its children's subtrees is building their concatenation |
| BuildPlan.WalkFields | svg-core/src/main/java/com/kitfox/svg/SVGElement.java:427-456 | after a build each visited node carries its refreshed fields and each other node keeps its own |
| BuildPlan.WalkSettled | svg-core/src/main/java/com/kitfox/svg/SVGElement.java:427-456 | a build over nodes that already carry their refreshed fields changes nothing |
| BuildPlan.WalkIdempotent | svg-core/src/main/java/com/kitfox/svg/SVGElement.java:427-456 | building twice in a row is building once |
| BuildPlan.StepRegisters | svg-core/src/main/java/com/kitfox/svg/SVGElement.java:434-439 | a changed id registers the node under the new id and drops the old entry; the rest of the registry is unchanged |
| ElementLemmas.BuildRefreshes | svg-core/src/main/java/com/kitfox/svg/SVGElement.java:427-456 | after build, a visited node's id, class and base are what its presentation tier resolves to, or unchanged when the tier has none |
| SvgElement.Root | svg-core/src/main/java/com/kitfox/svg/SVGElement.java:493-496 | when not null, the result is an SVGRoot on the element's chain |
| ElementLemmas.RootNullIff | svg-core/src/main/java/com/kitfox/svg/SVGElement.java:493-496 | getRoot is null exactly when no node on the element's path is an SVGRoot |
| ElementLemmas.RootIsNearest | svg-core/src/main/java/com/kitfox/svg/SVGElement.java:493-496 | a non-null getRoot is on the element's path, and no node after it on that path is an SVGRoot: it is the nearest one |
| SvgElement.XmlBase | svg-core/src/main/java/com/kitfox/svg/SVGElement.java:458-462 | the base URI of the nearest node on the path that has one, and otherwise the diagram's base URI |
| SvgElement.Element.GetLocalStyle | svg-core/src/main/java/com/kitfox/svg/SVGElement.java:584-629 | found exactly when a local tier answers: the inline track when evaluating animation, then the inline value, then the presentation track when evaluating animation, then the presentation value; on a miss the cell is empty |
| SvgElement.LocalStyle | svg-core/src/main/java/com/kitfox/svg/SVGElement.java:586-629 | absent exactly when neither tier holds the name and, if animation is evaluated, neither tier has a track for it |
| SvgElement.Element.GetStyle | svg-core/src/main/java/com/kitfox/svg/SVGElement.java:581-658 | the boolean returned and the cell's value are the cascade for the attribute's name |
| SvgElement.Style | svg-core/src/main/java/com/kitfox/svg/SVGElement.java:581-658 | a miss leaves the cell empty |
| SvgElement.SheetLookup | svg-core/src/main/java/com/kitfox/svg/SVGElement.java:632-640 | the style sheet's answer is returned as it is; a miss leaves the cell empty |
| SvgElement.ResolutionParent | svg-core/src/main/java/com/kitfox/svg/SVGElement.java:645-653 | the top of the context stack if there is one, otherwise the structural parent |
| ElementLemmas.SheetEndsCascade | svg-core/src/main/java/com/kitfox/svg/SVGElement.java:630-640 | once getRoot has a style sheet, its answer ends the cascade: the result is the sheet's answer, recursive or not, whatever the parent or a context holds |
| ElementLemmas.ContextOverridesParent | svg-core/src/main/java/com/kitfox/svg/SVGElement.java:645-649 | with a context pushed, an unresolved recursive lookup continues at the context, not at the parent |
| ElementLemmas.AncestorEvaluatesAnimation | svg-core/src/main/java/com/kitfox/svg/SVGElement.java:643-653 | the ancestor step evaluates animation even when the caller asked it not to |
| ElementLemmas.StyleAbsent | svg-core/src/main/java/com/kitfox/svg/SVGElement.java:581-658 | a name that no tier, track or style sheet along the chain holds is not found, and the cell is left empty |
| ElementLemmas.StyleAgreesWithPres | svg-core/src/main/java/com/kitfox/svg/SVGElement.java:609-629 | with no inline entry and no inline track, getStyle with animation gives what getPres gives whenever getPres finds something |
| SvgElement.Element.GetStyleRecursive | svg-core/src/main/java/com/kitfox/svg/SVGElement.java:562-565 | getStyle(attrib, recursive) is the cascade with animation evaluated |
| SvgElement.Element.GetStyleDefault | svg-core/src/main/java/com/kitfox/svg/SVGElement.java:507-510 | getStyle(attrib) is the recursive cascade with animation evaluated |
| SvgElement.Element.GetPres | svg-core/src/main/java/com/kitfox/svg/SVGElement.java:679-704 | the cell and the boolean are getPres's answer for the attribute's name |
| SvgElement.Pres | svg-core/src/main/java/com/kitfox/svg/SVGElement.java:679-704 | found exactly when there is a presentation track or value, ignoring the inline tier; without a track the value is the stored one; a miss leaves the cell empty |
| SvgElement.PresIn | svg-core/src/main/java/com/kitfox/svg/SVGElement.java:679-704 | getPres's answer for a given snapshot of the presentation tier |
| NonSvg.NonSvgElement.constructor | svg-core/src/main/java/com/kitfox/svg/NonSVGElement.java:47-50 | null tag, names and parent; no attributes and no children |
| NonSvg.NonSvgElement.GetTagName | svg-core/src/main/java/com/kitfox/svg/NonSVGElement.java:52-54 | the current tag |
| NonSvg.NonSvgElement.SetTagName | svg-core/src/main/java/com/kitfox/svg/NonSVGElement.java:52-58 | getTagName then returns the value set; the other fields are unchanged |
| NonSvg.NonSvgElement.GetQName | svg-core/src/main/java/com/kitfox/svg/NonSVGElement.java:60-62 | the current qualified name |
| NonSvg.NonSvgElement.SetQName | svg-core/src/main/java/com/kitfox/svg/NonSVGElement.java:60-66 | getQName then returns the value set; the other fields are unchanged |
| NonSvg.NonSvgElement.GetNsUri | svg-core/src/main/java/com/kitfox/svg/NonSVGElement.java:68-70 | the current namespace URI |
| NonSvg.NonSvgElement.SetNsUri | svg-core/src/main/java/com/kitfox/svg/NonSVGElement.java:68-74 | getNsUri then returns the value set; the other fields are unchanged |
| NonSvg.NonSvgElement.GetParent | svg-core/src/main/java/com/kitfox/svg/NonSVGElement.java:76-78 | the current parent |
| NonSvg.NonSvgElement.SetParent | svg-core/src/main/java/com/kitfox/svg/NonSVGElement.java:76-82 | getParent then returns the value set; the other fields are unchanged |
| NonSvg.NonSvgElement.GetChildren | svg-core/src/main/java/com/kitfox/svg/NonSVGElement.java:90-98 | given null, returns a fresh list holding the children in order; otherwise returns the caller's list with its old contents as a prefix and the children appended |
| NonSvg.NodeList.AddAll | svg-core/src/main/java/com/kitfox/svg/NonSVGElement.java:95 | addAll appends the elements in order |
| NonSvg.NonSvgElement.AddChild | svg-core/src/main/java/com/kitfox/svg/NonSVGElement.java:100-103 | the element is appended after the earlier children, and its parent link is unchanged |
| NonSvg.NonSvgElement.GetAttributes | svg-core/src/main/java/com/kitfox/svg/NonSVGElement.java:105-108 | the element's own attribute map, not a copy: a caller's changes to it are the element's |

## Left out

- `parseTransform`, `parseSingleTransform` and `lerp`: these are floating-point `AffineTransform` arithmetic.
- `parsePathList` and `buildPath`: they delegate to `PathParser` and `GeneralPath`, which are not part of this model.
- The abstract `getTagName` and `updateTime`:
  - `getTagName` is the constant `tagName`;
  - `updateTime` belongs to the concrete element kinds.
- `Serializable` and string interning: they do not change any value the layer computes.
- Trivial accessors of `SVGElement` are not separate members; the model reads and writes the fields directly: `getParent`, `setParent`, `getId`, `getNumChildren` and `getChild(int)`.
- `loaderAddText` and `loaderEndElement`: their bodies are empty.
- `TrackBase.getValue` and the universe clock are the `TrackEval` oracle.
  - The model does not capture a null `diagram` during track evaluation.
- `StyleSheet.getStyle` is an oracle.
  - On a miss it is assumed to leave the cell as it was, which is empty at that point.
- `XMLParseUtil.parseStyle` and `new URI(...)` are the oracles `parseStyle` and `parseUri`.
  - URIs are kept as strings.
  - `StyleAttribute.getURIValue` is `parseUri` of the cell's string.
- `SVGDiagram`, `SVGRoot`, `AnimationElement` and `TrackManager` are not part of this model beyond what the element layer uses:
  - the id map and base URI of the diagram;
  - `isSvgRoot` and `styleSheet` for a root;
  - `animates` for the track key that `addTrackElement` records.
- Tier entries are string values, not shared `StyleAttribute` objects:
  - aliasing through the cells returned by `getStyleAbsolute` and `getPresAbsolute` is not modelled;
  - `setAttribute` tests the name it is given rather than the cell's own name, which is the same for every cell this layer creates.
- SAX attribute values are never null here, so a null value in the copy loop is not modelled.
- Cyclic parent chains and cyclic child lists are not modelled. A ghost `rank` or `height` witness requires them to be finite and acyclic; in Java a cycle overflows the stack.
- A `NullPointerException` from a missing diagram is a precondition instead of an error path:
  - `SvgElement.Element.LoaderAddChild` requires a diagram;
  - `SvgElement.Element.LoaderStartElement` requires the loader's diagram when the id is non-empty;
  - `SvgElement.XmlBase` requires a diagram at the root when no node of the path has a base.
- SvgElement.Element.Build: requires a diagram on every node, which is stronger than the source. `build` dereferences the diagram only when a node's id changes (`SVGElement.java:434-438`), so a subtree without a diagram whose ids stay the same builds without error in Java; the model does not cover that case.
- SvgElement.Element.AddAttribute: takes a non-null value. Java also accepts null, and for `"id"` that clears the id: the registry drops the old id, registers the node under the null key, and `id` becomes null (`SVGElement.java:304-309`). The model does not cover a null value, so it does not capture clearing the id this way.
- SvgElement.Element.SetAttribute: takes a non-null value. Java also accepts null, and for `"id"` that clears the id the same way (`SVGElement.java:551-556`), storing a null string in the cell. The model does not cover a null value.
- SvgElement.Element.Build and SvgElement.Element.SwapChildren require every node of the subtree to share one diagram.
  - That is what `loaderAddChild` establishes.
  - A subtree whose nodes point to different diagrams is not covered.
- SvgElement.Element.BuildOwn asks `getPres` for id, class and `xml:base` before changing any field; Java interleaves the queries with the writes.
  - The results agree because `build` writes neither tier nor the tracks.
- The `children == null` test in `swapChildren` is not modelled: the list is final and never null.
