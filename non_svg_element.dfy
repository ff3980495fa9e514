/** NonSVGElement: a plain tree node for markup that is not SVG, with a tag,
    a qualified name, a namespace URI, a parent link, an attribute map handed
    out by reference, and a child list that only grows. */
module NonSvg {
  import opened SvgTypes

  /** The HashMap<String, String> of attributes, shared with whoever asks for it. */
  class StringMap {
    var entries: map<string, string>

    constructor ()
      ensures entries == map[]
    {
      entries := map[];
    }
  }

  /** A caller's List<NonSVGElement>. */
  class NodeList {
    var items: seq<NonSvgElement>

    constructor ()
      ensures items == []
    {
      items := [];
    }

    /** addAll(xs): appends the elements of xs, in order. */
    method AddAll(xs: seq<NonSvgElement>)
      modifies this`items
      ensures items == old(items) + xs
    {
      items := items + xs;
    }
  }

  class NonSvgElement {
    var tag: Option<string>
    var qName: Option<string>
    var nsUri: Option<string>
    var parent: NonSvgElement?
    /** The attribute map; the field itself never changes. */
    const attributes: StringMap
    var children: seq<NonSvgElement>

    /** NonSVGElement(): no tag, no names, no parent, no attributes, no children. */
    constructor ()
      ensures tag == None && qName == None && nsUri == None && parent == null
      ensures fresh(attributes) && attributes.entries == map[] && children == []
    {
      tag := None;
      qName := None;
      nsUri := None;
      parent := null;
      attributes := new StringMap();
      children := [];
    }

    function GetTagName(): (r: Option<string>)
      reads this`tag
    {
      tag
    }

    /** setTagName(t): the tag becomes t and nothing else changes. */
    method SetTagName(t: Option<string>)
      modifies this`tag
      ensures GetTagName() == t
      ensures qName == old(qName) && nsUri == old(nsUri) && parent == old(parent) && children == old(children)
    {
      tag := t;
    }

    function GetQName(): (r: Option<string>)
      reads this`qName
    {
      qName
    }

    /** setQName(q): the qualified name becomes q and nothing else changes. */
    method SetQName(q: Option<string>)
      modifies this`qName
      ensures GetQName() == q
      ensures tag == old(tag) && nsUri == old(nsUri) && parent == old(parent) && children == old(children)
    {
      qName := q;
    }

    function GetNsUri(): (r: Option<string>)
      reads this`nsUri
    {
      nsUri
    }

    /** setNsUri(u): the namespace URI becomes u and nothing else changes. */
    method SetNsUri(u: Option<string>)
      modifies this`nsUri
      ensures GetNsUri() == u
      ensures tag == old(tag) && qName == old(qName) && parent == old(parent) && children == old(children)
    {
      nsUri := u;
    }

    function GetParent(): (r: NonSvgElement?)
      reads this`parent
    {
      parent
    }

    /** setParent(p): the parent becomes p and nothing else changes. */
    method SetParent(p: NonSvgElement?)
      modifies this`parent
      ensures GetParent() == p
      ensures tag == old(tag) && qName == old(qName) && nsUri == old(nsUri) && children == old(children)
    {
      parent := p;
    }

    /** getChildren(retVec): a fresh list when retVec is null, otherwise
        retVec itself, with all children appended after what it held. */
    method GetChildren(retVec: NodeList?) returns (r: NodeList)
      modifies if retVec != null then {retVec} else {}
      ensures retVec != null ==> r == retVec && r.items == old(retVec.items) + children
      ensures retVec == null ==> fresh(r) && r.items == children
    {
      if retVec == null {
        r := new NodeList();
      } else {
        r := retVec;
      }
      r.AddAll(children);
    }

    /** addChild(element): appends the element; its parent link is not set. */
    method AddChild(element: NonSvgElement)
      modifies this`children
      ensures children == old(children) + [element]
      ensures element.parent == old(element.parent)
    {
      children := children + [element];
    }

    /** getAttributes(): the element's own map, not a copy. */
    function GetAttributes(): (r: StringMap)
    {
      attributes
    }
  }
}
