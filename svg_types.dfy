/** Value types shared by the element model: Java's nullable strings, the
    attribute-tier selector codes, and the exceptions the element layer throws. */
module SvgTypes {

  /** A Java reference that may be null: `None` is null. */
  datatype Option<+T> = None | Some(value: T)

  /** An element id as SVGElement and SVGDiagram see it: a String that may be null. */
  type Id = Option<string>

  /** The integer attribute-type codes of AnimationElement: AT_CSS (the inline
      style tier), AT_XML (the presentation tier), AT_AUTO (either), and
      `Other` for any other integer a caller may pass. */
  datatype AttribType = Css | Xml | Auto | Other

  /** The exceptions thrown by the element layer. */
  datatype Error =
    | AttributeExists       // addAttribute: "Attribute ... already exists"
    | AttributeMissing      // setAttribute: "Could not find attribute ..."
    | InvalidAttributeType  // "Invalid attribute type ..."
    | NotAChild             // removeChild: "Element does not contain child ..."
    | NoSuchElement         // LinkedList.removeLast on an empty context stack
    | MalformedUri          // URISyntaxException on xml:base, rethrown as SAXException

  /** A call that either returns a value or throws one of the errors above. */
  datatype Result<+T> = Ok(value: T) | Err(error: Error)

  /** A call that returns normally (void) or throws. */
  datatype Outcome = Pass | Fail(error: Error)

  /** What a style query leaves behind: the boolean it returns and the string
      value it has written into the caller's StyleAttribute cell. */
  datatype Lookup = Lookup(found: bool, value: string)
}
