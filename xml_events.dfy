/**
 * The stream of parse events that an XML pull reader (System.Xml.XmlReader)
 * delivers to the converter, one per call to ReadAsync, in document order.
 * The reader itself is not modelled: a document is represented by the
 * sequence of events it yields.
 */
module XmlEvents {

  /** A value that may be missing; `None` stands for the .NET `null`. */
  datatype Option<+T> = None | Some(value: T)

  /**
   * The node kinds that ReadAsync can stop on besides Element, EndElement,
   * Text and Whitespace. The converter treats all of them alike.
   */
  datatype NodeKind =
    | CDATA
    | EntityReference
    | ProcessingInstruction
    | Comment
    | DocumentType
    | SignificantWhitespace
    | EndEntity
    | XmlDeclaration

  /**
   * One parse event. `name` is the reader's `Name` (the qualified element
   * name), `attrs` maps each attribute name on the start tag to its value,
   * and `isEmpty` is the reader's `IsEmptyElement` (a self-closing tag such
   * as `<hr/>`, for which the reader yields no separate EndElement event).
   */
  datatype Event =
    | ElementStart(name: string, attrs: map<string, string>, isEmpty: bool)
    | ElementEnd(name: string)
    | Text(value: string)
    | Whitespace(value: string)
    | Other(kind: NodeKind, value: string)

  /** XmlReader.HasAttributes on an element node: at least one attribute. */
  predicate HasAttributes(attrs: map<string, string>)
  {
    |attrs| > 0
  }

  /** XmlReader.GetAttribute(key): the attribute's value, or null when absent. */
  function GetAttribute(attrs: map<string, string>, key: string): (r: Option<string>)
  {
    if key in attrs then Some(attrs[key]) else None
  }
}
