/**
 * CodeConverter: the fixed BBCode tag vocabulary and the conversion of a
 * stream of XML parse events into BBCode text (ReadAndConvert).
 *
 * The specification is per event: `Contribution(e)` is the text that event
 * `e` appends, and `Converted(es)` is the concatenation of the contributions
 * of `es` in order. `ReadAndConvert` is the imperative loop with its single
 * growing buffer, proved to produce `Converted(events)`.
 */
module CodeConverter {
  import opened XmlEvents
  import opened DotNetText
  import opened Concatenation

  /** The recognised tag names (the static `bbtags` collection). */
  const BBTags: seq<string> := [
    "b", "i", "s", "u", "heading", "big", "small", "sub", "sup",
    "center", "left", "right", "justify", "hr", "indent", "color",
    "noparse", "url", "img", "quote", "collapse", "icon", "eicon", "user"
  ]

  /**
   * Environment.NewLine, the text StringBuilder.AppendLine() appends. It is
   * platform-defined, so nothing about its value is assumed.
   */
  const NL: string

  /**
   * bbtags.Contains(name): some entry of the collection equals `name` under
   * ordinal (case-sensitive) string comparison.
   */
  predicate IsTag(name: string)
  {
    exists i :: 0 <= i < |BBTags| && BBTags[i] == name
  }

  /** End tags that close a paragraph and stand for a line break. */
  predicate IsParagraph(name: string)
  {
    name == "p" || name == "para" || name == "paragraph"
  }

  /**
   * The text one parse event appends to the buffer. A vocabulary start tag
   * carries a value when the element has an attribute of its own name whose
   * value is not blank; the value is copied as it is.
   */
  function Contribution(e: Event): (r: string)
  {
    match e
    case ElementStart(name, attrs, _) =>
      if IsTag(name) then
        if name in attrs && !AllWhiteSpace(attrs[name]) then "[" + name + "=" + attrs[name] + "]"
        else "[" + name + "]"
      else if name == "br" then NL
      else ""
    case Text(value) => value
    case ElementEnd(name) =>
      if IsTag(name) then "[/" + name + "]"
      else if IsParagraph(name) then NL
      else ""
    case Whitespace(_) => ""
    case Other(_, _) => ""
  }

  /** The output for a whole event sequence: the contributions, in order. */
  function Converted(es: seq<Event>): (r: string)
  {
    ConcatMap(Contribution, es)
  }

  /** Appending one event to the input appends its contribution to the output. */
  lemma ConvertedSnoc(es: seq<Event>, e: Event)
    ensures Converted(es + [e]) == Converted(es) + Contribution(e)
  {
    ConcatMapSnoc(Contribution, es, e);
  }

  /** Processing one more event appends exactly its contribution. */
  lemma ConvertedStep(es: seq<Event>, k: nat)
    requires k < |es|
    ensures Converted(es[..k + 1]) == Converted(es[..k]) + Contribution(es[k])
  {
    assert es[..k + 1] == es[..k] + [es[k]];
    ConvertedSnoc(es[..k], es[k]);
  }

  /**
   * One iteration of ReadAndConvert's loop: the switch on the node type,
   * appending to the buffer `sb` and returning its new contents.
   */
  method AppendEvent(sb: string, e: Event) returns (sb': string)
    ensures sb' == sb + Contribution(e)
  {
    sb' := sb;
    match e {
      case ElementStart(name, attrs, _) =>
        if IsTag(name) {
          if HasAttributes(attrs) {
            var value := GetAttribute(attrs, name);
            if !IsNullOrWhiteSpace(value) {
              sb' := sb + ("[" + name + "=" + value.value + "]");
            } else {
              sb' := sb + ("[" + name + "]");
            }
          } else {
            assert name !in attrs;
            sb' := sb + ("[" + name + "]");
          }
        } else if name == "br" {
          sb' := sb + NL;
        }
      case Text(value) =>
        sb' := sb + value;
      case ElementEnd(name) =>
        if IsTag(name) {
          sb' := sb + ("[/" + name + "]");
        } else if name == "p" || name == "para" || name == "paragraph" {
          sb' := sb + NL;
        }
      case Whitespace(_) =>
      case Other(_, _) =>
    }
  }

  /**
   * ReadAndConvert: read the events one at a time, in order, appending each
   * one's text to a single buffer that starts empty; return the buffer.
   */
  method ReadAndConvert(events: seq<Event>) returns (sb: string)
    ensures sb == Converted(events)
  {
    sb := "";
    var i := 0;
    while i < |events|
      invariant 0 <= i <= |events|
      invariant sb == Converted(events[..i])
    {
      sb := AppendEvent(sb, events[i]);
      ConvertedStep(events, i);
      i := i + 1;
    }
    assert events[..i] == events;
  }
}
