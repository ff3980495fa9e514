/** The element tree and attribute layer of SVGElement: the children list and
    parent link, the two attribute tiers (inline style and presentation), the
    parent-context override stack, the style cascade, and the id registry kept
    by the owning diagram. */
module SvgElement {
  import opened SvgTypes
  import opened ListOps
  import opened IdRegistry
  import opened AttributeList
  import opened NodeMaps
  import opened BuildPlan

  /** The value of the animation track an element holds for (attribute name,
      tier), evaluated at the diagram's current time from the base value already
      written into the caller's cell. TrackBase.getValue and the universe clock
      are outside this model; this function stands for them. */
  type TrackEval = (Element, string, AttribType, string) -> string

  /** The style sheet of an SVGRoot: for (attribute name, tag name, css class)
      it yields the value its rules define, or nothing. */
  datatype StyleSheet = StyleSheet(lookup: (string, string, Option<string>) -> Option<string>)

  /** StyleAttribute as the caller's result cell: a name and a string value. */
  class StyleAttribute {
    var name: string
    var stringValue: string

    constructor (name: string)
      ensures this.name == name && stringValue == ""
    {
      this.name := name;
      stringValue := "";
    }
  }

  /** A caller's List<SVGElement>, which getChildren and getPath append into. */
  class ElementList {
    var items: seq<Element>

    constructor ()
      ensures items == []
    {
      items := [];
    }

    /** add(x): appends x. */
    method Add(x: Element)
      modifies this`items
      ensures items == old(items) + [x]
    {
      items := items + [x];
    }

    /** addAll(xs): appends the elements of xs, in order. */
    method AddAll(xs: seq<Element>)
      modifies this`items
      ensures items == old(items) + xs
    {
      items := items + xs;
    }
  }

  /** The part of SVGDiagram the element layer uses: the id -> element map and
      the document's base URI. */
  class Diagram {
    var idMap: map<Id, Element>
    var xmlBase: Option<string>

    constructor (xmlBase: Option<string>)
      ensures idMap == map[] && this.xmlBase == xmlBase
    {
      idMap := map[];
      this.xmlBase := xmlBase;
    }

    method SetElement(name: Id, node: Element)
      modifies this`idMap
      ensures idMap == old(idMap)[name := node]
    {
      idMap := idMap[name := node];
    }

    method RemoveElement(name: Id)
      modifies this`idMap
      ensures idMap == old(idMap) - {name}
    {
      idMap := idMap - {name};
    }
  }

  class Element {
    /** getTagName(), which each concrete element kind defines. */
    const tagName: string
    /** True for SVGRoot, whose getRoot() returns itself. */
    const isSvgRoot: bool
    /** For an AnimationElement, the (attribute name, attribute type) its track targets. */
    const animates: Option<(string, AttribType)>

    var parent: Element?
    var children: seq<Element>
    var id: Id
    var cssClass: Option<string>
    /** The inline style tier, from the style attribute (AT_CSS). */
    var inlineStyles: map<string, string>
    /** The presentation tier: every other attribute (AT_XML). */
    var presAttribs: map<string, string>
    var xmlBase: Option<string>
    var diagram: Diagram?
    /** The keys of the tracks the track manager holds. */
    var tracks: set<(string, AttribType)>
    /** The parent-context override stack; its last element is its top. */
    var contexts: seq<Element>
    /** The style sheet of an SVGRoot. */
    var styleSheet: Option<StyleSheet>

    /** SVGElement(id, cssClass, parent); the no-argument constructor passes nulls. */
    constructor (tagName: string, isSvgRoot: bool, animates: Option<(string, AttribType)>,
                 id: Id, cssClass: Option<string>, parent: Element?)
      ensures this.tagName == tagName && this.isSvgRoot == isSvgRoot && this.animates == animates
      ensures this.id == id && this.cssClass == cssClass && this.parent == parent
      ensures children == [] && inlineStyles == map[] && presAttribs == map[]
      ensures xmlBase == None && diagram == null && tracks == {} && contexts == []
      ensures styleSheet == None
    {
      this.tagName := tagName;
      this.isSvgRoot := isSvgRoot;
      this.animates := animates;
      this.id := id;
      this.cssClass := cssClass;
      this.parent := parent;
      children := [];
      inlineStyles := map[];
      presAttribs := map[];
      xmlBase := None;
      diagram := null;
      tracks := {};
      contexts := [];
      styleSheet := None;
    }

    // ---------------------------------------------------------------- tree queries

    /** getChildren(retVec): a fresh list when retVec is null, otherwise retVec
        itself, with all children appended after what it held. */
    method GetChildren(retVec: ElementList?) returns (r: ElementList)
      modifies if retVec != null then {retVec} else {}
      ensures retVec != null ==> r == retVec && r.items == old(retVec.items) + children
      ensures retVec == null ==> fresh(r) && r.items == children
    {
      if retVec == null {
        r := new ElementList();
      } else {
        r := retVec;
      }
      r.AddAll(children);
    }

    /** getChild(id): the first immediate child whose non-null id equals the argument. */
    method GetChild(id: Id) returns (r: Element?)
      ensures r == null <==> forall k :: 0 <= k < |children| ==> !HasId(children[k], id)
      ensures r != null ==> exists k :: (0 <= k < |children| && children[k] == r && HasId(r, id) &&
        forall j :: 0 <= j < k ==> !HasId(children[j], id))
    {
      var i := 0;
      while i < |children|
        invariant 0 <= i <= |children|
        invariant forall j :: 0 <= j < i ==> !HasId(children[j], id)
      {
        var ele := children[i];
        var eleId := ele.id;
        if eleId != None && eleId == id {
          return ele;
        }
        i := i + 1;
      }
      return null;
    }

    /** indexOfChild(child): the first position of the child, or -1. */
    function IndexOfChild(child: Element): (r: int)
      reads this
      ensures -1 <= r < |children|
      ensures r == -1 <==> child !in children
      ensures 0 <= r ==> children[r] == child && child !in children[..r]
    {
      IndexOf(children, child)
    }

    /** getPath(retVec): a fresh list when retVec is null, otherwise retVec
        itself, with the nodes from the root of the tree down to this one
        appended. The parent's call appends into the same list; its result is
        not used. */
    method GetPath(retVec: ElementList?, ghost rank: map<Element, nat>) returns (r: ElementList)
      requires ParentsRanked(rank) && this in rank
      modifies if retVec != null then {retVec} else {}
      ensures retVec != null ==> r == retVec && r.items == old(retVec.items) + PathToRoot(this, rank)
      ensures retVec == null ==> fresh(r) && r.items == PathToRoot(this, rank)
      decreases rank[this]
    {
      if retVec == null {
        r := new ElementList();
      } else {
        r := retVec;
      }
      if parent != null {
        var _ := parent.GetPath(r, rank);
      }
      r.Add(this);
    }

    /** getParentContext(): the top of the context stack, or null when it is empty. */
    function ParentContext(): (r: Element?)
      reads this
      ensures r == null <==> contexts == []
      ensures r != null ==> r == contexts[|contexts| - 1]
    {
      if contexts == [] then null else contexts[|contexts| - 1]
    }

    // ----------------------------------------------------------- context stack

    /** pushParentContext(context): the node is resolved as if parented by `context`. */
    method PushParentContext(context: Element)
      modifies this`contexts
      ensures contexts == old(contexts) + [context]
    {
      contexts := contexts + [context];
    }

    /** popParentContext(): removes and returns the top; LinkedList.removeLast
        throws on an empty stack. */
    method PopParentContext() returns (r: Result<Element>)
      modifies this`contexts
      ensures old(contexts) == [] ==> r == Err(NoSuchElement) && contexts == []
      ensures old(contexts) != [] ==>
        r == Ok(old(contexts)[|old(contexts)| - 1]) && contexts == old(contexts)[..|old(contexts)| - 1]
    {
      if contexts == [] {
        return Err(NoSuchElement);
      }
      r := Ok(contexts[|contexts| - 1]);
      contexts := contexts[..|contexts| - 1];
    }

    // --------------------------------------------------------- attribute store

    /** hasAttribute(name, attribType). */
    function HasAttribute(name: string, attribType: AttribType): (r: Result<bool>)
      reads this
      ensures r.Err? <==> attribType == Other
      ensures r.Err? ==> r.error == InvalidAttributeType
      ensures attribType == Css ==> r == Ok(name in inlineStyles)
      ensures attribType == Xml ==> r == Ok(name in presAttribs)
      ensures attribType == Auto ==> r == Ok(name in inlineStyles || name in presAttribs)
    {
      match attribType
      case Css => Ok(name in inlineStyles)
      case Xml => Ok(name in presAttribs)
      case Auto => Ok(name in inlineStyles || name in presAttribs)
      case Other => Err(InvalidAttributeType)
    }

    /** The tier whose entry setAttribute(name, attribType, _) updates, or the
        error it throws. AUTO picks the inline entry when both exist. */
    function SetTarget(name: string, attribType: AttribType): (r: Result<AttribType>)
      reads this
      ensures attribType == Other ==> r == Err(InvalidAttributeType)
      ensures attribType != Other ==> (r.Err? <==> HasAttribute(name, attribType) == Ok(false))
      ensures attribType != Other && r.Err? ==> r.error == AttributeMissing
      ensures r.Ok? ==> (r.value == Css && name in inlineStyles) || (r.value == Xml && name in presAttribs)
      ensures r.Ok? && attribType != Auto ==> r.value == attribType
      ensures attribType == Auto && name in inlineStyles ==> r == Ok(Css)
    {
      match attribType
      case Css => if name in inlineStyles then Ok(Css) else Err(AttributeMissing)
      case Xml => if name in presAttribs then Ok(Xml) else Err(AttributeMissing)
      case Auto =>
        if name in inlineStyles then Ok(Css)
        else if name in presAttribs then Ok(Xml)
        else Err(AttributeMissing)
      case Other => Err(InvalidAttributeType)
    }

    /** addAttribute(name, attribType, value). The existence check comes first;
        for "id" the registry and the id field are retargeted before the tier
        is chosen, so AUTO retargets and then throws. */
    method AddAttribute(name: string, attribType: AttribType, value: string) returns (o: Outcome)
      modifies this`id, this`inlineStyles, this`presAttribs, diagram
      ensures diagram != null ==> diagram.xmlBase == old(diagram.xmlBase)
      ensures old(HasAttribute(name, attribType)).Err? ==>
        o == Fail(InvalidAttributeType) && unchanged(this) && (diagram != null ==> unchanged(diagram))
      ensures old(HasAttribute(name, attribType)) == Ok(true) ==>
        o == Fail(AttributeExists) && unchanged(this) && (diagram != null ==> unchanged(diagram))
      ensures old(HasAttribute(name, attribType)) == Ok(false) ==>
        && o == (if attribType == Auto then Fail(InvalidAttributeType) else Pass)
        && id == (if name == "id" then Some(value) else old(id))
        && (diagram != null ==>
              diagram.idMap == (if name == "id" then Reassign(old(diagram.idMap), old(id), Some(value), this)
                                else old(diagram.idMap)))
        && inlineStyles == (if attribType == Css then old(inlineStyles)[name := value] else old(inlineStyles))
        && presAttribs == (if attribType == Xml then old(presAttribs)[name := value] else old(presAttribs))
    {
      var has := HasAttribute(name, attribType);
      if has.Err? {
        return Fail(has.error);
      }
      if has.value {
        return Fail(AttributeExists);
      }
      if name == "id" {
        if diagram != null {
          diagram.RemoveElement(id);
          diagram.SetElement(Some(value), this);
        }
        id := Some(value);
      }
      match attribType {
        case Css =>
          inlineStyles := inlineStyles[name := value];
          return Pass;
        case Xml =>
          presAttribs := presAttribs[name := value];
          return Pass;
        case _ =>
      }
      return Fail(InvalidAttributeType);
    }

    /** setAttribute(name, attribType, value): only an existing entry can be
        set; for "id" the registry and the id field are retargeted too. */
    method SetAttribute(name: string, attribType: AttribType, value: string) returns (o: Outcome)
      modifies this`id, this`inlineStyles, this`presAttribs, diagram
      ensures diagram != null ==> diagram.xmlBase == old(diagram.xmlBase)
      ensures old(SetTarget(name, attribType)).Err? ==>
        o == Fail(old(SetTarget(name, attribType)).error) && unchanged(this) &&
        (diagram != null ==> unchanged(diagram))
      ensures old(SetTarget(name, attribType)).Ok? ==>
        && o == Pass
        && id == (if name == "id" then Some(value) else old(id))
        && (diagram != null ==>
              diagram.idMap == (if name == "id" then Reassign(old(diagram.idMap), old(id), Some(value), this)
                                else old(diagram.idMap)))
        && inlineStyles == (if old(SetTarget(name, attribType)) == Ok(Css)
                            then old(inlineStyles)[name := value] else old(inlineStyles))
        && presAttribs == (if old(SetTarget(name, attribType)) == Ok(Xml)
                           then old(presAttribs)[name := value] else old(presAttribs))
      ensures inlineStyles.Keys == old(inlineStyles.Keys) && presAttribs.Keys == old(presAttribs.Keys)
    {
      var target := SetTarget(name, attribType);
      if target.Err? {
        return Fail(target.error);
      }
      if name == "id" {
        if diagram != null {
          diagram.RemoveElement(id);
          diagram.SetElement(Some(value), this);
        }
        id := Some(value);
      }
      if target.value == Css {
        inlineStyles := inlineStyles[name := value];
      } else {
        presAttribs := presAttribs[name := value];
      }
      return Pass;
    }

    /** removeAttribute(name, attribType): only AT_CSS and AT_XML remove anything. */
    method RemoveAttribute(name: string, attribType: AttribType)
      modifies this`inlineStyles, this`presAttribs
      ensures inlineStyles == if attribType == Css then old(inlineStyles) - {name} else old(inlineStyles)
      ensures presAttribs == if attribType == Xml then old(presAttribs) - {name} else old(presAttribs)
    {
      match attribType {
        case Css => inlineStyles := inlineStyles - {name};
        case Xml => presAttribs := presAttribs - {name};
        case _ =>
      }
    }

    /** getInlineAttributes(): the names the inline tier holds, those for
        which getStyleAbsolute answers. */
    function InlineAttributes(): (r: set<string>)
      reads this
      ensures forall n :: n in r <==> StyleAbsolute(n).Some?
    {
      inlineStyles.Keys
    }

    /** getPresentationAttributes(): the names the presentation tier holds,
        those for which getPresAbsolute answers. */
    function PresentationAttributes(): (r: set<string>)
      reads this
      ensures forall n :: n in r <==> PresAbsolute(n).Some?
    {
      presAttribs.Keys
    }

    // --------------------------------------------------------- tree mutation

    /** removeChild(child): throws when the child is absent; otherwise drops
        its first occurrence. The child's parent link is left as it is. */
    method RemoveChild(child: Element) returns (o: Outcome)
      modifies this`children
      ensures child !in old(children) ==> o == Fail(NotAChild) && children == old(children)
      ensures child in old(children) ==> o == Pass && children == RemoveFirst(old(children), child)
    {
      if child !in children {
        return Fail(NotAChild);
      }
      children := RemoveFirst(children, child);
      return Pass;
    }

    /** The first step of setDiagram: this node takes the diagram and is
        registered under its id. */
    method AttachSelf(d: Diagram, ghost nodes: set<Element>)
      requires this in nodes
      modifies this`diagram, d`idMap
      ensures Kids(nodes) == old(Kids(nodes)) && IdsOf(nodes) == old(IdsOf(nodes))
      ensures DiagramsOf(nodes) == Mark(old(DiagramsOf(nodes)), [this], d)
      ensures d.idMap == Register(old(d.idMap), [this], old(IdsOf(nodes)))
    {
      diagram := d;
      d.SetElement(id, this);
      assert DiagramsOf(nodes) == Mark(old(DiagramsOf(nodes)), [this], d) by {
        forall x | x in nodes
          ensures DiagramsOf(nodes)[x] == Mark(old(DiagramsOf(nodes)), [this], d)[x]
        {
        }
      }
      assert [this][1..] == [];
    }

    /** setDiagram(diagram): stores the diagram in every node of the subtree,
        in preorder, registering each under its id (a null id included). */
    method SetDiagram(d: Diagram, ghost height: map<Element, nat>)
      requires Grounded(height) && this in height
      modifies height.Keys`diagram, d`idMap
      ensures Kids(height.Keys) == old(Kids(height.Keys)) && IdsOf(height.Keys) == old(IdsOf(height.Keys))
      ensures DiagramsOf(height.Keys) == Mark(old(DiagramsOf(height.Keys)), old(Preorder(this, height)), d)
      ensures d.idMap == Register(old(d.idMap), old(Preorder(this, height)), old(IdsOf(height.Keys)))
      decreases height[this]
    {
      ghost var kids := Kids(height.Keys);
      ghost var ids := IdsOf(height.Keys);
      AttachSelf(d, height.Keys);
      ghost var marked := DiagramsOf(height.Keys);
      ghost var registered := d.idMap;
      ghost var rest := [];
      var i := 0;
      while i < |children|
        invariant 0 <= i <= |children| && children == kids[this]
        invariant rest == OrderAll(kids, height, kids[this][..i], height[this])
        invariant Kids(height.Keys) == kids && IdsOf(height.Keys) == ids
        invariant d.idMap == Register(registered, rest, ids)
        invariant DiagramsOf(height.Keys) == Mark(marked, rest, d)
      {
        ghost var next := Order(kids, height, children[i]);
        children[i].SetDiagram(d, height);
        RegisterAppend(registered, rest, next, ids);
        MarkAppend(marked, rest, next, d);
        OrderAllStep(kids, height, this, i);
        rest := rest + next;
        i := i + 1;
      }
      assert kids[this][..i] == kids[this];
      RegisterAppend(old(d.idMap), [this], rest, ids);
      MarkAppend(old(DiagramsOf(height.Keys)), [this], rest, d);
    }

    /** loaderAddChild(helper, child): appends the child, makes this its parent,
        hands it this node's diagram and records an animation child's track. */
    method LoaderAddChild(child: Element, ghost height: map<Element, nat>)
      requires diagram != null
      requires Grounded(height) && child in height && this !in height
      modifies this`children, this`tracks, child`parent, height.Keys`diagram, diagram`idMap
      ensures children == old(children) + [child]
      ensures tracks == if child.animates.Some? then old(tracks) + {child.animates.value} else old(tracks)
      ensures child.parent == this
      ensures DiagramsOf(height.Keys) == Mark(old(DiagramsOf(height.Keys)), old(Preorder(child, height)), diagram)
      ensures diagram.idMap == Register(old(diagram.idMap), old(Preorder(child, height)), old(IdsOf(height.Keys)))
    {
      children := children + [child];
      child.parent := this;
      assert Kids(height.Keys) == old(Kids(height.Keys));
      assert IdsOf(height.Keys) == old(IdsOf(height.Keys));
      assert DiagramsOf(height.Keys) == old(DiagramsOf(height.Keys));
      assert Preorder(child, height) == old(Preorder(child, height));
      child.SetDiagram(diagram, height);
      if child.animates.Some? {
        tracks := tracks + {child.animates.value};
      }
    }

    /** The first step of loaderStartElement: the parent and the loader's
        diagram are taken, the id attribute (null when absent) becomes the id,
        and a non-empty id is registered in the diagram. */
    method LoaderIdentify(helperDiagram: Diagram?, parent: Element?, newId: Id)
      requires newId.Some? && newId.value != "" ==> helperDiagram != null
      modifies this`parent, this`diagram, this`id, (if helperDiagram != null then {helperDiagram} else {})`idMap
      ensures this.parent == parent && diagram == helperDiagram && id == newId
      ensures helperDiagram != null ==>
        helperDiagram.idMap == if newId.Some? && newId.value != "" then old(helperDiagram.idMap)[newId := this]
                               else old(helperDiagram.idMap)
    {
      this.parent := parent;
      diagram := helperDiagram;
      id := newId;
      if id.Some? && id.value != "" {
        diagram.SetElement(id, this);
      }
    }

    /** The class attribute (an empty one counts as none) becomes the class,
        and a style attribute is parsed into the inline tier. */
    method LoaderClassAndStyle(className: Option<string>, style: Option<string>,
                               parseStyle: (string, map<string, string>) -> map<string, string>)
      modifies this`cssClass, this`inlineStyles
      ensures cssClass == if className == Some("") then None else className
      ensures inlineStyles == if style.Some? then parseStyle(style.value, old(inlineStyles)) else old(inlineStyles)
    {
      cssClass := if className.None? || className.value == "" then None else className;
      if style.Some? {
        inlineStyles := parseStyle(style.value, inlineStyles);
      }
    }

    /** A non-empty xml:base attribute becomes the base URI; one that is not a
        URI fails the load and leaves the base as it was. */
    method LoaderBase(base: Option<string>, parseUri: string -> Option<string>) returns (o: Outcome)
      modifies this`xmlBase
      ensures base.Some? && base.value != "" && parseUri(base.value).None? ==>
        o == Fail(MalformedUri) && xmlBase == old(xmlBase)
      ensures !(base.Some? && base.value != "" && parseUri(base.value).None?) ==>
        o == Pass && xmlBase == if base.Some? && base.value != "" then parseUri(base.value) else old(xmlBase)
    {
      if base.Some? && base.value != "" {
        var uri := parseUri(base.value);
        if uri.None? {
          return Fail(MalformedUri);
        }
        xmlBase := uri;
      }
      return Pass;
    }

    /** The last step of loaderStartElement: every attribute, in order, put
        into the presentation tier. */
    method CopyAttributes(attrs: Attrs)
      modifies this`presAttribs
      ensures presAttribs == PutAll(old(presAttribs), attrs)
    {
      var i := 0;
      while i < |attrs|
        invariant 0 <= i <= |attrs|
        invariant presAttribs == PutAll(old(presAttribs), attrs[..i])
      {
        assert attrs[..i + 1][..i] == attrs[..i];
        presAttribs := presAttribs[attrs[i].0 := attrs[i].1];
        i := i + 1;
      }
      assert attrs[..i] == attrs;
    }

    /** loaderStartElement(helper, attrs, parent): takes the parent and the
        loader's diagram; registers a non-empty id; takes the class (an empty
        one counts as none); parses a style attribute into the inline tier;
        takes a non-empty xml:base, failing when it is not a URI; and finally
        copies every attribute, in order, into the presentation tier. */
    method LoaderStartElement(helperDiagram: Diagram?, attrs: Attrs, parent: Element?,
                              parseStyle: (string, map<string, string>) -> map<string, string>,
                              parseUri: string -> Option<string>) returns (o: Outcome)
      requires ValueOf(attrs, "id").Some? && ValueOf(attrs, "id").value != "" ==> helperDiagram != null
      modifies this`parent, this`diagram, this`id, this`cssClass, this`inlineStyles, this`xmlBase,
               this`presAttribs, (if helperDiagram != null then {helperDiagram} else {})`idMap
      ensures this.parent == parent && diagram == helperDiagram && id == ValueOf(attrs, "id")
      ensures helperDiagram != null ==>
        helperDiagram.idMap == if id.Some? && id.value != "" then old(helperDiagram.idMap)[id := this]
                               else old(helperDiagram.idMap)
      ensures cssClass == if ValueOf(attrs, "class") == Some("") then None else ValueOf(attrs, "class")
      ensures inlineStyles == if ValueOf(attrs, "style").Some?
                              then parseStyle(ValueOf(attrs, "style").value, old(inlineStyles))
                              else old(inlineStyles)
      ensures var base := ValueOf(attrs, "xml:base");
        if base.Some? && base.value != "" && parseUri(base.value).None?
        then o == Fail(MalformedUri) && xmlBase == old(xmlBase) && presAttribs == old(presAttribs)
        else o == Pass && presAttribs == PutAll(old(presAttribs), attrs) &&
             xmlBase == if base.Some? && base.value != "" then parseUri(base.value) else old(xmlBase)
    {
      LoaderIdentify(helperDiagram, parent, ValueOf(attrs, "id"));
      LoaderClassAndStyle(ValueOf(attrs, "class"), ValueOf(attrs, "style"), parseStyle);
      o := LoaderBase(ValueOf(attrs, "xml:base"), parseUri);
      if o.Fail? {
        return;
      }
      CopyAttributes(attrs);
    }

    /** build(): refreshes id, class and xml:base of every node of the
        subtree, in preorder, from what its presentation tier (animation
        included) resolves to; an id that changes is moved in the diagram's
        registry. */
    method Build(eval: TrackEval, parseUri: string -> Option<string>, ghost height: map<Element, nat>)
      requires Grounded(height) && this in height && diagram != null && OneDiagram(height, diagram)
      modifies height.Keys`id, height.Keys`cssClass, height.Keys`xmlBase, diagram`idMap
      ensures Kids(height.Keys) == old(Kids(height.Keys)) && PresOf(height.Keys) == old(PresOf(height.Keys))
      ensures State(diagram.idMap, FieldsOf(height.Keys)) ==
        Walk(old(State(diagram.idMap, FieldsOf(height.Keys))), old(Preorder(this, height)),
             Updates(old(PresOf(height.Keys)), eval, parseUri))
    {
      ghost var pres := PresOf(height.Keys);
      BuildWalk(eval, parseUri, height, Kids(height.Keys), pres, Updates(pres, eval, parseUri));
    }

    /** swapChildren(i, j): an index out of range leaves everything as it
        is; otherwise children i and j trade places and the subtree is
        rebuilt in its new order. */
    method SwapChildren(i: int, j: int, eval: TrackEval, parseUri: string -> Option<string>,
                        ghost height: map<Element, nat>)
      requires Grounded(height) && this in height && diagram != null && OneDiagram(height, diagram)
      modifies this`children, height.Keys`id, height.Keys`cssClass, height.Keys`xmlBase, diagram`idMap
      ensures !(0 <= i < |old(children)| && 0 <= j < |old(children)|) ==>
        children == old(children) && State(diagram.idMap, FieldsOf(height.Keys)) == old(State(diagram.idMap, FieldsOf(height.Keys)))
      ensures 0 <= i < |old(children)| && 0 <= j < |old(children)| ==> children == Swapped(old(children), i, j)
      ensures Grounded(height) && PresOf(height.Keys) == old(PresOf(height.Keys))
      ensures 0 <= i < |old(children)| && 0 <= j < |old(children)| ==>
        State(diagram.idMap, FieldsOf(height.Keys)) ==
          Walk(old(State(diagram.idMap, FieldsOf(height.Keys))), Preorder(this, height),
               Updates(old(PresOf(height.Keys)), eval, parseUri))
    {
      if i < 0 || i >= |children| || j < 0 || j >= |children| {
        return;
      }
      ghost var kids := Kids(height.Keys);
      children := Swapped(children, i, j);
      assert Kids(height.Keys) == kids[this := Swapped(kids[this], i, j)];
      assert PresOf(height.Keys) == old(PresOf(height.Keys));
      assert State(diagram.idMap, FieldsOf(height.Keys)) == old(State(diagram.idMap, FieldsOf(height.Keys)));
      GroundedSwap(kids, height, this, i, j);
      ghost var order := Preorder(this, height);
      Build(eval, parseUri, height);
      assert Preorder(this, height) == order;
    }

    /** build() on this node's own fields, with `u` what its presentation
        tier resolves to: an id that differs from the current one replaces it,
        in the field and in the registry; a class or xml:base replaces the
        current one. */
    method ApplyUpdate(u: Update, ghost nodes: set<Element>)
      requires diagram != null
      modifies this`id, this`cssClass, this`xmlBase, diagram`idMap
      ensures Kids(nodes) == old(Kids(nodes)) && PresOf(nodes) == old(PresOf(nodes))
      ensures Fields(id, cssClass, xmlBase) == Refresh(old(Fields(id, cssClass, xmlBase)), u)
      ensures diagram.idMap ==
        (if u.id.Some? && u.id != old(id) then Reassign(old(diagram.idMap), old(id), u.id, this)
         else old(diagram.idMap))
    {
      if u.id.Some? && u.id != id {
        diagram.RemoveElement(id);
        id := u.id;
        diagram.SetElement(id, this);
      }
      if u.cssClass.Some? {
        cssClass := u.cssClass;
      }
      if u.xmlBase.Some? {
        xmlBase := u.xmlBase.value;
      }
      assert forall x :: x in nodes ==> x.children == old(x.children);
      assert forall x :: x in nodes ==> x.presAttribs == old(x.presAttribs) && x.tracks == old(x.tracks);
    }

    /** build() on this node alone, with `update` what its presentation tier
        resolves to. */
    method BuildOwn(eval: TrackEval, parseUri: string -> Option<string>, ghost nodes: set<Element>, ghost update: Update)
      requires this in nodes && diagram != null
      requires update == UpdateFor(this, Tier(presAttribs, tracks), eval, parseUri)
      modifies this`id, this`cssClass, this`xmlBase, diagram`idMap
      ensures Kids(nodes) == old(Kids(nodes)) && PresOf(nodes) == old(PresOf(nodes))
      ensures State(diagram.idMap, FieldsOf(nodes)) == Step(old(State(diagram.idMap, FieldsOf(nodes))), this, update)
    {
      var u := UpdateFor(this, Tier(presAttribs, tracks), eval, parseUri);
      ApplyUpdate(u, nodes);
      assert FieldsOf(nodes) == old(FieldsOf(nodes))[this := Fields(id, cssClass, xmlBase)] by {
        forall x | x in nodes
          ensures FieldsOf(nodes)[x] == old(FieldsOf(nodes))[this := Fields(id, cssClass, xmlBase)][x]
        {
        }
      }
    }

    /** The walk of build() over a subtree whose children lists are `kids`
        and whose presentation tiers are `pres`, with the updates those tiers
        resolve to precomputed. */
    method BuildWalk(eval: TrackEval, parseUri: string -> Option<string>, ghost height: map<Element, nat>,
                     ghost kids: map<Element, seq<Element>>, ghost pres: map<Element, Tier>,
                     ghost updates: map<Element, Update>)
      requires GroundedIn(kids, height) && Kids(height.Keys) == kids && this in height
      requires diagram != null && OneDiagram(height, diagram)
      requires PresOf(height.Keys) == pres && updates == Updates(pres, eval, parseUri)
      modifies height.Keys`id, height.Keys`cssClass, height.Keys`xmlBase, diagram`idMap
      ensures Kids(height.Keys) == kids && PresOf(height.Keys) == pres
      ensures State(diagram.idMap, FieldsOf(height.Keys)) ==
        Walk(old(State(diagram.idMap, FieldsOf(height.Keys))), Order(kids, height, this), updates)
      decreases height[this], 2
    {
      ghost var d: Diagram := diagram;
      BuildOwn(eval, parseUri, height.Keys, updates[this]);
      ghost var built := State(d.idMap, FieldsOf(height.Keys));
      WalkOne(old(State(d.idMap, FieldsOf(height.Keys))), this, updates);
      ghost var rest := BuildChildren(eval, parseUri, height, kids, pres, updates, built);
      WalkAppend(old(State(d.idMap, FieldsOf(height.Keys))), [this], rest, updates);
    }

    /** build()'s loop over the children, after the node itself was built
        into `built`: the walks of the children, one after the other. */
    method BuildChildren(eval: TrackEval, parseUri: string -> Option<string>, ghost height: map<Element, nat>,
                         ghost kids: map<Element, seq<Element>>, ghost pres: map<Element, Tier>,
                         ghost updates: map<Element, Update>, ghost built: State<Element>)
      returns (ghost rest: seq<Element>)
      requires GroundedIn(kids, height) && Kids(height.Keys) == kids && this in height
      requires diagram != null && OneDiagram(height, diagram)
      requires PresOf(height.Keys) == pres && updates == Updates(pres, eval, parseUri)
      requires State(diagram.idMap, FieldsOf(height.Keys)) == built
      modifies height.Keys`id, height.Keys`cssClass, height.Keys`xmlBase, diagram`idMap
      ensures Kids(height.Keys) == kids && PresOf(height.Keys) == pres
      ensures rest == OrderAll(kids, height, kids[this], height[this])
      ensures State(diagram.idMap, FieldsOf(height.Keys)) == Walk(built, rest, updates)
      decreases height[this], 1
    {
      ghost var d: Diagram := diagram;
      WalkNothing(built, updates);
      rest := [];
      var i := 0;
      while i < |children|
        invariant 0 <= i <= |children| && children == kids[this]
        invariant rest == OrderAll(kids, height, kids[this][..i], height[this])
        invariant Kids(height.Keys) == kids && OneDiagram(height, d) && PresOf(height.Keys) == pres
        invariant State(d.idMap, FieldsOf(height.Keys)) == Walk(built, rest, updates)
      {
        rest := BuildChild(eval, parseUri, height, kids, pres, updates, i, built, rest);
        i := i + 1;
      }
      assert kids[this][..i] == kids[this];
    }

    /** One turn of build()'s loop over the children: the walk of child `i`,
        appended to the walk of the children before it. */
    method BuildChild(eval: TrackEval, parseUri: string -> Option<string>, ghost height: map<Element, nat>,
                      ghost kids: map<Element, seq<Element>>, ghost pres: map<Element, Tier>,
                      ghost updates: map<Element, Update>, i: nat, ghost built: State<Element>,
                      ghost rest: seq<Element>) returns (ghost rest': seq<Element>)
      requires GroundedIn(kids, height) && Kids(height.Keys) == kids && this in height && i < |kids[this]|
      requires diagram != null && OneDiagram(height, diagram)
      requires PresOf(height.Keys) == pres && updates == Updates(pres, eval, parseUri)
      requires rest == OrderAll(kids, height, kids[this][..i], height[this])
      requires State(diagram.idMap, FieldsOf(height.Keys)) == Walk(built, rest, updates)
      modifies height.Keys`id, height.Keys`cssClass, height.Keys`xmlBase, diagram`idMap
      ensures Kids(height.Keys) == kids && PresOf(height.Keys) == pres
      ensures rest' == OrderAll(kids, height, kids[this][..i + 1], height[this])
      ensures State(diagram.idMap, FieldsOf(height.Keys)) == Walk(built, rest', updates)
      decreases height[this], 0
    {
      var child := children[i];
      ghost var next := Order(kids, height, child);
      child.BuildWalk(eval, parseUri, height, kids, pres, updates);
      WalkAppend(built, rest, next, updates);
      OrderAllStep(kids, height, this, i);
      rest' := rest + next;
    }

    // ------------------------------------------------------------- the cascade

    /** The local part of getStyle: the inline track (when evalAnimation), the
        inline value, the presentation track (when evalAnimation) and the
        presentation value, first hit wins; the cell is left empty on a miss. */
    method GetLocalStyle(attrib: StyleAttribute, evalAnimation: bool, eval: TrackEval) returns (found: bool)
      modifies attrib`stringValue
      ensures found <==> LocalStyle(this, attrib.name, evalAnimation, eval).Some?
      ensures found ==> attrib.stringValue == LocalStyle(this, attrib.name, evalAnimation, eval).value.value
      ensures !found ==> attrib.stringValue == ""
    {
      var styName := attrib.name;
      attrib.stringValue := if styName in inlineStyles then inlineStyles[styName] else "";
      if evalAnimation && (styName, Css) in tracks {
        attrib.stringValue := eval(this, styName, Css, attrib.stringValue);
        return true;
      }
      if styName in inlineStyles {
        return true;
      }
      attrib.stringValue := if styName in presAttribs then presAttribs[styName] else "";
      if evalAnimation && (styName, Xml) in tracks {
        attrib.stringValue := eval(this, styName, Xml, attrib.stringValue);
        return true;
      }
      return styName in presAttribs;
    }

    /** getStyle(attrib, recursive, evalAnimation): writes the resolved value of
        attrib's name into the cell and returns whether one was found. */
    method GetStyle(attrib: StyleAttribute, recursive: bool, evalAnimation: bool,
                    eval: TrackEval, ghost rank: map<Element, nat>) returns (found: bool)
      requires Ranked(rank) && this in rank
      modifies attrib`stringValue
      ensures attrib.name == old(attrib.name)
      ensures Lookup(found, attrib.stringValue) == old(Style(this, attrib.name, recursive, evalAnimation, eval, rank))
      decreases rank[this]
    {
      var styName := attrib.name;
      ghost var want := Style(this, styName, recursive, evalAnimation, eval, rank);
      found := GetLocalStyle(attrib, evalAnimation, eval);
      if found {
        return;
      }
      var root := Root(this, rank);
      if root != null && root.styleSheet.Some? {
        var v := root.styleSheet.value.lookup(styName, tagName, cssClass);
        if v.Some? {
          attrib.stringValue := v.value;
        }
        return v.Some?;
      }
      if recursive {
        var parentContext := ParentContext();
        if parentContext != null {
          assert want == Style(parentContext, styName, true, true, eval, rank);
          found := parentContext.GetStyle(attrib, true, true, eval, rank);
          return;
        }
        if parent != null {
          assert want == Style(parent, styName, true, true, eval, rank);
          found := parent.GetStyle(attrib, true, true, eval, rank);
          return;
        }
      }
    }

    /** getStyle(attrib, recursive): the cascade with animation evaluated. */
    method GetStyleRecursive(attrib: StyleAttribute, recursive: bool,
                             eval: TrackEval, ghost rank: map<Element, nat>) returns (found: bool)
      requires Ranked(rank) && this in rank
      modifies attrib`stringValue
      ensures Lookup(found, attrib.stringValue) == old(Style(this, attrib.name, recursive, true, eval, rank))
    {
      found := GetStyle(attrib, recursive, true, eval, rank);
    }

    /** getStyle(attrib): the full cascade, ancestors and animation included. */
    method GetStyleDefault(attrib: StyleAttribute, eval: TrackEval, ghost rank: map<Element, nat>)
      returns (found: bool)
      requires Ranked(rank) && this in rank
      modifies attrib`stringValue
      ensures Lookup(found, attrib.stringValue) == old(Style(this, attrib.name, true, true, eval, rank))
    {
      found := GetStyleRecursive(attrib, true, eval, rank);
    }

    /** getPres(attrib): the presentation tier alone, animation included. */
    method GetPres(attrib: StyleAttribute, eval: TrackEval) returns (found: bool)
      modifies attrib`stringValue
      ensures Lookup(found, attrib.stringValue) == Pres(this, attrib.name, eval)
    {
      var presName := attrib.name;
      attrib.stringValue := if presName in presAttribs then presAttribs[presName] else "";
      if (presName, Xml) in tracks {
        attrib.stringValue := eval(this, presName, Xml, attrib.stringValue);
        return true;
      }
      return presName in presAttribs;
    }

    /** getStyleAbsolute(name): the raw inline-style entry, bypassing cascade and animation. */
    function StyleAbsolute(name: string): (r: Option<string>)
      reads this
      ensures r.Some? <==> name in inlineStyles
      ensures r.Some? ==> r.value == inlineStyles[name]
    {
      if name in inlineStyles then Some(inlineStyles[name]) else None
    }

    /** getPresAbsolute(name): the raw presentation entry, bypassing animation. */
    function PresAbsolute(name: string): (r: Option<string>)
      reads this
      ensures r.Some? <==> name in presAttribs
      ensures r.Some? ==> r.value == presAttribs[name]
    {
      if name in presAttribs then Some(presAttribs[name]) else None
    }
  }

  /** The test getChild applies to each child: its id is non-null and equal to the argument. */
  predicate HasId(x: Element, id: Id)
    reads x
  {
    x.id != None && x.id == id
  }

  // ------------------------------------------------------------- upward walks

  /** A termination witness for walks up the parent links: each parent ranks
      strictly below its child, so the parent chain is finite. */
  ghost predicate ParentsRanked(rank: map<Element, nat>)
    reads rank.Keys
  {
    forall e :: e in rank && e.parent != null ==> e.parent in rank && rank[e.parent] < rank[e]
  }

  /** The same for the walk getStyle makes: parents and context-stack tops rank
      strictly below the element. */
  ghost predicate Ranked(rank: map<Element, nat>)
    reads rank.Keys
  {
    ParentsRanked(rank) &&
    forall e :: e in rank && e.contexts != [] ==>
      e.contexts[|e.contexts| - 1] in rank && rank[e.contexts[|e.contexts| - 1]] < rank[e]
  }

  /** The nodes from the root of the tree down to `e`: the root has no parent and
      each later node is the child of the one before. */
  ghost function PathToRoot(e: Element, rank: map<Element, nat>): (path: seq<Element>)
    reads rank.Keys
    requires ParentsRanked(rank) && e in rank
    ensures |path| >= 1 && path[|path| - 1] == e && path[0].parent == null
    ensures forall k :: 0 < k < |path| ==> path[k].parent == path[k - 1]
    ensures forall x :: x in path ==> x in rank
    decreases rank[e]
  {
    if e.parent == null then [e] else PathToRoot(e.parent, rank) + [e]
  }

  /** getRoot(): null for a parentless element that is not an SVGRoot, an SVGRoot
      itself, otherwise the parent's root. */
  function Root(e: Element, ghost rank: map<Element, nat>): (r: Element?)
    reads rank.Keys
    requires ParentsRanked(rank) && e in rank
    ensures r != null ==> r.isSvgRoot && r in rank
    decreases rank[e]
  {
    if e.isSvgRoot then e
    else if e.parent == null then null
    else Root(e.parent, rank)
  }

  /** The xml:base of the nearest node of a root-first path that has one. */
  ghost function NearestBase(path: seq<Element>): Option<string>
    reads path
  {
    if path == [] then None
    else if path[|path| - 1].xmlBase.Some? then path[|path| - 1].xmlBase
    else NearestBase(path[..|path| - 1])
  }

  /** getXMLBase(): this node's own xml:base, else the parent's, else the
      diagram's base URI (a null diagram there is a NullPointerException). */
  function XmlBase(e: Element, ghost rank: map<Element, nat>): (r: Option<string>)
    reads rank.Keys, set x | x in rank && x.diagram != null :: x.diagram
    requires ParentsRanked(rank) && e in rank
    requires NearestBase(PathToRoot(e, rank)).Some? || PathToRoot(e, rank)[0].diagram != null
    ensures r == if NearestBase(PathToRoot(e, rank)).Some? then NearestBase(PathToRoot(e, rank))
                 else PathToRoot(e, rank)[0].diagram.xmlBase
    decreases rank[e]
  {
    if e.xmlBase.Some? then e.xmlBase
    else if e.parent != null then
      var p := PathToRoot(e, rank);
      assert p[..|p| - 1] == PathToRoot(e.parent, rank);
      XmlBase(e.parent, rank)
    else
      assert PathToRoot(e, rank) == [e] && NearestBase([e]) == None;
      e.diagram.xmlBase
  }

  /** The node getStyle walks to when nothing local resolves: the top of the
      context stack if there is one, otherwise the structural parent. */
  function ResolutionParent(e: Element): (r: Element?)
    reads e
    ensures r == if e.contexts != [] then e.contexts[|e.contexts| - 1] else e.parent
  {
    var c := e.ParentContext();
    if c != null then c else e.parent
  }

  /** What the root's style sheet answers for a query made from `e`. */
  function SheetLookup(sheet: StyleSheet, name: string, e: Element): (r: Lookup)
    reads e
    ensures !r.found ==> r.value == ""
  {
    match sheet.lookup(name, e.tagName, e.cssClass)
    case Some(v) => Lookup(true, v)
    case None => Lookup(false, "")
  }

  /** The four local tiers of getStyle, in order: inline track (when
      evalAnimation), inline value, presentation track (when evalAnimation),
      presentation value. Nothing when none of them is present. */
  function LocalStyle(e: Element, name: string, evalAnimation: bool, eval: TrackEval): (r: Option<Lookup>)
    reads e
    ensures r.Some? ==> r.value.found
    ensures r.None? <==> (name !in e.inlineStyles && name !in e.presAttribs &&
      !(evalAnimation && ((name, Css) in e.tracks || (name, Xml) in e.tracks)))
  {
    var inline := if name in e.inlineStyles then e.inlineStyles[name] else "";
    if evalAnimation && (name, Css) in e.tracks then Some(Lookup(true, eval(e, name, Css, inline)))
    else if name in e.inlineStyles then Some(Lookup(true, inline))
    else
      var pres := if name in e.presAttribs then e.presAttribs[name] else "";
      if evalAnimation && (name, Xml) in e.tracks then Some(Lookup(true, eval(e, name, Xml, pres)))
      else if name in e.presAttribs then Some(Lookup(true, pres))
      else None
  }

  /** The cascade of getStyle(attrib, recursive, evalAnimation): the returned
      boolean and the value left in the caller's cell. First hit wins: the local
      tiers, then the root's style sheet (its answer returned as is), and then,
      only when recursive, the context top or else the parent, queried through
      getStyle(attrib, true), which evaluates animation. */
  function Style(e: Element, name: string, recursive: bool, evalAnimation: bool,
                 eval: TrackEval, ghost rank: map<Element, nat>): (r: Lookup)
    reads rank.Keys
    requires Ranked(rank) && e in rank
    ensures !r.found ==> r.value == ""
    decreases rank[e]
  {
    var local := LocalStyle(e, name, evalAnimation, eval);
    if local.Some? then local.value
    else
      var root := Root(e, rank);
      if root != null && root.styleSheet.Some? then SheetLookup(root.styleSheet.value, name, e)
      else if recursive && ResolutionParent(e) != null then
        Style(ResolutionParent(e), name, true, true, eval, rank)
      else Lookup(false, "")
  }

  /** A snapshot of a node's presentation tier: its values and its tracks. */
  datatype Tier = Tier(values: map<string, string>, tracks: set<(string, AttribType)>)

  /** getPres(attrib) of node `e` whose presentation tier is `tier`: the
      presentation track if there is one, else the presentation value. */
  function PresIn(e: Element, tier: Tier, name: string, eval: TrackEval): (r: Lookup)
    ensures r.found <==> (name, Xml) in tier.tracks || name in tier.values
    ensures !r.found ==> r.value == ""
    ensures r.found && (name, Xml) !in tier.tracks ==> r.value == tier.values[name]
  {
    var pres := if name in tier.values then tier.values[name] else "";
    if (name, Xml) in tier.tracks then Lookup(true, eval(e, name, Xml, pres))
    else if name in tier.values then Lookup(true, pres)
    else Lookup(false, "")
  }

  /** getPres(attrib) on the node as it is now. */
  function Pres(e: Element, name: string, eval: TrackEval): (r: Lookup)
    reads e`presAttribs, e`tracks
    ensures r.found <==> (name, Xml) in e.tracks || name in e.presAttribs
    ensures !r.found ==> r.value == ""
    ensures r.found && (name, Xml) !in e.tracks ==> r.value == e.presAttribs[name]
  {
    PresIn(e, Tier(e.presAttribs, e.tracks), name, eval)
  }

  // ----------------------------------------------------------- downward walks

  /** The children list of each of `nodes`. */
  ghost function Kids(nodes: set<Element>): (r: map<Element, seq<Element>>)
    reads nodes`children
    ensures r.Keys == nodes
  {
    map x | x in nodes :: x.children
  }

  /** `height` bounds every subtree of `kids`: children are listed too, with
      smaller heights, so walks down the children terminate. */
  ghost predicate GroundedIn(kids: map<Element, seq<Element>>, height: map<Element, nat>)
  {
    && kids.Keys == height.Keys
    && forall e, k :: e in kids && 0 <= k < |kids[e]| ==>
         kids[e][k] in height && height[kids[e][k]] < height[e]
  }

  /** GroundedIn for the children lists of the current heap. */
  ghost predicate Grounded(height: map<Element, nat>)
    reads height.Keys`children
  {
    GroundedIn(Kids(height.Keys), height)
  }

  /** The order in which build and setDiagram visit a subtree: the node, then
      each child's subtree in child order. */
  ghost function Order(kids: map<Element, seq<Element>>, height: map<Element, nat>, e: Element): (r: seq<Element>)
    requires GroundedIn(kids, height) && e in height
    ensures |r| >= 1 && r[0] == e
    ensures forall x :: x in r ==> x in height
    decreases height[e], 1
  {
    [e] + OrderAll(kids, height, kids[e], height[e])
  }

  /** The subtrees of `cs`, one after another; a node that is not below
      `bound` contributes nothing (the children of a node always are). */
  ghost function OrderAll(kids: map<Element, seq<Element>>, height: map<Element, nat>,
                          cs: seq<Element>, bound: nat): (r: seq<Element>)
    requires GroundedIn(kids, height)
    ensures forall x :: x in r ==> x in height
    decreases bound, 0, |cs|
  {
    if cs == [] then []
    else
      var c := cs[|cs| - 1];
      OrderAll(kids, height, cs[..|cs| - 1], bound) +
        (if c in height && height[c] < bound then Order(kids, height, c) else [])
  }

  /** One more child of `e` extends the walk by that child's subtree. */
  lemma OrderAllStep(kids: map<Element, seq<Element>>, height: map<Element, nat>, e: Element, i: nat)
    requires GroundedIn(kids, height) && e in kids && i < |kids[e]|
    ensures OrderAll(kids, height, kids[e][..i + 1], height[e]) ==
            OrderAll(kids, height, kids[e][..i], height[e]) + Order(kids, height, kids[e][i])
  {
    assert kids[e][..i + 1][..i] == kids[e][..i];
  }

  /** Exchanging two children of one node keeps the heights a bound. */
  lemma GroundedSwap(kids: map<Element, seq<Element>>, height: map<Element, nat>, e: Element, i: nat, j: nat)
    requires GroundedIn(kids, height) && e in kids && i < |kids[e]| && j < |kids[e]|
    ensures GroundedIn(kids[e := Swapped(kids[e], i, j)], height)
  {
    var kids' := kids[e := Swapped(kids[e], i, j)];
    forall x, k | x in kids' && 0 <= k < |kids'[x]|
      ensures kids'[x][k] in height && height[kids'[x][k]] < height[x]
    {
      if x == e {
        var k' := if k == i then j else if k == j then i else k;
        assert kids'[x][k] == kids[e][k'];
      }
    }
  }

  /** The preorder of the subtree under `e` in the current heap. */
  ghost function Preorder(e: Element, height: map<Element, nat>): (r: seq<Element>)
    reads height.Keys`children
    requires Grounded(height) && e in height
    ensures |r| >= 1 && r[0] == e
    ensures forall x :: x in r ==> x in height
  {
    Order(Kids(height.Keys), height, e)
  }

  /** The id field of each of `nodes`. */
  ghost function IdsOf(nodes: set<Element>): (r: map<Element, Id>)
    reads nodes`id
    ensures r.Keys == nodes
  {
    map x | x in nodes :: x.id
  }

  /** The diagram field of each of `nodes`. */
  ghost function DiagramsOf(nodes: set<Element>): (r: map<Element, Diagram?>)
    reads nodes`diagram
    ensures r.Keys == nodes
  {
    map x | x in nodes :: x.diagram
  }

  /** The fields build() refreshes, for each of `nodes`. */
  ghost function FieldsOf(nodes: set<Element>): (r: map<Element, Fields>)
    reads nodes`id, nodes`cssClass, nodes`xmlBase
    ensures r.Keys == nodes
  {
    map x | x in nodes :: Fields(x.id, x.cssClass, x.xmlBase)
  }

  /** Every one of the nodes refers to the diagram `d`. */
  ghost predicate OneDiagram(height: map<Element, nat>, d: Diagram)
    reads height.Keys`diagram
  {
    forall x :: x in height ==> x.diagram == d
  }

  /** What getPres reports for `name` on a tier snapshot, as a value: present or absent. */
  function TargetIn(e: Element, tier: Tier, name: string, eval: TrackEval): (r: Option<string>)
    ensures r.Some? <==> PresIn(e, tier, name, eval).found
    ensures r.Some? ==> r.value == PresIn(e, tier, name, eval).value
  {
    var p := PresIn(e, tier, name, eval);
    if p.found then Some(p.value) else None
  }

  /** The presentation tier of each of `nodes`. */
  ghost function PresOf(nodes: set<Element>): (r: map<Element, Tier>)
    reads nodes`presAttribs, nodes`tracks
    ensures r.Keys == nodes
  {
    map x | x in nodes :: Tier(x.presAttribs, x.tracks)
  }

  /** What build() takes from node `e` whose presentation tier is `tier`:
      the id and class it resolves, and the xml:base read as a URI. */
  function UpdateFor(e: Element, tier: Tier, eval: TrackEval, parseUri: string -> Option<string>): (r: Update)
    ensures r.id.Some? <==> PresIn(e, tier, "id", eval).found
    ensures r.id.Some? ==> r.id.value == PresIn(e, tier, "id", eval).value
    ensures r.cssClass.Some? <==> PresIn(e, tier, "class", eval).found
    ensures r.cssClass.Some? ==> r.cssClass.value == PresIn(e, tier, "class", eval).value
    ensures r.xmlBase.Some? <==> PresIn(e, tier, "xml:base", eval).found
    ensures r.xmlBase.Some? ==> r.xmlBase.value == parseUri(PresIn(e, tier, "xml:base", eval).value)
  {
    var base := TargetIn(e, tier, "xml:base", eval);
    Update(TargetIn(e, tier, "id", eval), TargetIn(e, tier, "class", eval),
           if base.Some? then Some(parseUri(base.value)) else None)
  }

  /** UpdateFor for each node of a tier snapshot. */
  ghost function Updates(pres: map<Element, Tier>, eval: TrackEval, parseUri: string -> Option<string>):
    (r: map<Element, Update>)
    ensures r.Keys == pres.Keys
  {
    map x | x in pres :: UpdateFor(x, pres[x], eval, parseUri)
  }
}
