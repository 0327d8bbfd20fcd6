/**
 * Properties of the BBCode conversion: the tag vocabulary, what each kind of
 * parse event contributes, and how the output of a whole event sequence is
 * built from its parts.
 */
module ConverterProperties {
  import opened XmlEvents
  import opened DotNetText
  import opened CodeConverter
  import opened Concatenation

  // ---------------------------------------------------------------------
  // The vocabulary
  // ---------------------------------------------------------------------

  /** bbtags holds 24 names, none of them twice. */
  lemma VocabularyHasTwentyFourNames()
    ensures |BBTags| == 24
    ensures forall i, j :: 0 <= i < j < |BBTags| ==> BBTags[i] != BBTags[j]
  {
  }

  /** Every entry of bbtags is a non-empty run of lower-case ASCII letters. */
  lemma VocabularyIsLowerCase()
    ensures forall i :: 0 <= i < |BBTags| ==> BBTags[i] != []
    ensures forall i, j :: 0 <= i < |BBTags| && 0 <= j < |BBTags[i]| ==> 'a' <= BBTags[i][j] <= 'z'
  {
  }

  /**
   * Matching is case-sensitive: a recognised name consists of lower-case
   * ASCII letters only, so a name with any other character (an upper-case
   * letter, a digit, the colon of a namespace prefix) is never a tag.
   */
  lemma TagsAreLowerCase(name: string)
    requires IsTag(name)
    ensures name != [] && forall i :: 0 <= i < |name| ==> 'a' <= name[i] <= 'z'
  {
    VocabularyIsLowerCase();
    var k :| 0 <= k < |BBTags| && BBTags[k] == name;
  }

  /** `br` is handled as a line break, not as a tag. */
  lemma BreakIsNotTag()
    ensures !IsTag("br")
  {
  }

  /** The paragraph names are not tags. */
  lemma ParagraphNamesAreNotTags()
    ensures !IsTag("p") && !IsTag("para") && !IsTag("paragraph")
  {
  }

  /** `font` is not a tag. */
  lemma FontIsNotTag()
    ensures !IsTag("font")
  {
  }

  // ---------------------------------------------------------------------
  // Start of an element
  // ---------------------------------------------------------------------

  /**
   * A vocabulary start tag is rendered `[name]` when it has no attributes,
   * when it has no attribute named after itself, or when that attribute's
   * value is empty or white space only.
   */
  lemma StartOfTagWithoutValue(name: string, attrs: map<string, string>, isEmpty: bool)
    requires IsTag(name)
    requires attrs == map[] || name !in attrs || AllWhiteSpace(attrs[name])
    ensures Contribution(ElementStart(name, attrs, isEmpty)) == "[" + name + "]"
  {
  }

  /**
   * A vocabulary start tag whose attribute named after itself has a value
   * that is not blank is rendered `[name=value]`, the value exactly as read
   * (neither trimmed nor escaped).
   */
  lemma StartOfTagWithValue(name: string, attrs: map<string, string>, isEmpty: bool)
    requires IsTag(name) && name in attrs && !AllWhiteSpace(attrs[name])
    ensures Contribution(ElementStart(name, attrs, isEmpty)) == "[" + name + "=" + attrs[name] + "]"
  {
  }

  /**
   * The two renderings together: a vocabulary start tag carries a value
   * exactly when its own-named attribute is non-empty after trimming.
   */
  lemma StartOfTagCarriesValueIffNotBlank(name: string, attrs: map<string, string>, isEmpty: bool)
    requires IsTag(name)
    ensures Contribution(ElementStart(name, attrs, isEmpty)) ==
            if name in attrs && Trim(attrs[name]) != "" then "[" + name + "=" + attrs[name] + "]"
            else "[" + name + "]"
  {
    if name in attrs {
      BlankIffTrimmedEmpty(attrs[name]);
    }
  }

  /** `<br>` always yields one line break, whatever its attributes. */
  lemma StartOfBreak(attrs: map<string, string>, isEmpty: bool)
    ensures Contribution(ElementStart("br", attrs, isEmpty)) == NL
  {
    BreakIsNotTag();
  }

  /** Any other start tag, `p` and container elements included, yields nothing. */
  lemma StartOfOtherElement(name: string, attrs: map<string, string>, isEmpty: bool)
    requires !IsTag(name) && name != "br"
    ensures Contribution(ElementStart(name, attrs, isEmpty)) == ""
  {
  }

  /**
   * A `font` attribute never changes the output: adding it, with any value,
   * to any start tag gives the same text as leaving it out.
   */
  lemma FontAttributeIgnored(name: string, attrs: map<string, string>, font: string, isEmpty: bool)
    ensures Contribution(ElementStart(name, attrs["font" := font], isEmpty)) ==
            Contribution(ElementStart(name, attrs - {"font"}, isEmpty))
  {
    FontIsNotTag();
    if IsTag(name) {
      assert name != "font";
    }
  }

  /**
   * Whether the reader reports the element as self-closing never matters:
   * `IsEmptyElement` is not consulted, so `<hr/>` yields only `[hr]` and no
   * closing tag.
   */
  lemma SelfClosingFlagIgnored(name: string, attrs: map<string, string>)
    ensures Contribution(ElementStart(name, attrs, true)) ==
            Contribution(ElementStart(name, attrs, false))
  {
  }

  // ---------------------------------------------------------------------
  // End of an element, text and the remaining node kinds
  // ---------------------------------------------------------------------

  /** A vocabulary end tag is rendered `[/name]`. */
  lemma EndOfTag(name: string)
    requires IsTag(name)
    ensures Contribution(ElementEnd(name)) == "[/" + name + "]"
  {
  }

  /** The end of `p`, `para` or `paragraph` yields exactly one line break. */
  lemma EndOfParagraph(name: string)
    requires IsParagraph(name)
    ensures Contribution(ElementEnd(name)) == NL
  {
    ParagraphNamesAreNotTags();
  }

  /** Any other end tag, `br` included, yields nothing. */
  lemma EndOfOtherElement(name: string)
    requires !IsTag(name) && !IsParagraph(name)
    ensures Contribution(ElementEnd(name)) == ""
  {
  }

  /** Text is copied verbatim. */
  lemma TextVerbatim(value: string)
    ensures Contribution(Text(value)) == value
  {
  }

  /**
   * Insignificant white space and every other node kind (comments,
   * processing instructions, CDATA, significant white space, ...) leave the
   * buffer unchanged.
   */
  lemma OtherNodesIgnored(e: Event)
    requires e.Whitespace? || e.Other?
    ensures Contribution(e) == ""
  {
  }

  // ---------------------------------------------------------------------
  // Whole event sequences
  // ---------------------------------------------------------------------

  /** The conversion is compositional: it distributes over concatenation. */
  lemma ConvertedAppend(a: seq<Event>, b: seq<Event>)
    ensures Converted(a + b) == Converted(a) + Converted(b)
  {
    ConcatMapAppend(Contribution, a, b);
  }

  /**
   * The buffer only grows: after the first `k` events it holds a prefix of
   * the final output, and the rest of the output is what the remaining
   * events contribute.
   */
  lemma ConvertedPrefix(es: seq<Event>, k: nat)
    requires k <= |es|
    ensures Converted(es) == Converted(es[..k]) + Converted(es[k..])
    ensures Converted(es[..k]) <= Converted(es)
  {
    assert es == es[..k] + es[k..];
    ConvertedAppend(es[..k], es[k..]);
  }

  /** One event on its own yields its contribution. */
  lemma ConvertedSingle(e: Event)
    ensures Converted([e]) == Contribution(e)
  {
    ConvertedSnoc([], e);
    assert [] + [e] == [e];
  }

  /**
   * A vocabulary element without a value, around any content, renders as
   * `[t]`, then the content's own rendering unchanged, then `[/t]`.
   */
  lemma WrappedInTag(t: string, attrs: map<string, string>, inner: seq<Event>)
    requires IsTag(t)
    requires t !in attrs || AllWhiteSpace(attrs[t])
    ensures Converted([ElementStart(t, attrs, false)] + inner + [ElementEnd(t)]) ==
            ("[" + t + "]") + Converted(inner) + ("[/" + t + "]")
  {
    var open, close := ElementStart(t, attrs, false), ElementEnd(t);
    ConvertedAppend([open] + inner, [close]);
    ConvertedAppend([open], inner);
    ConvertedSingle(open);
    ConvertedSingle(close);
    StartOfTagWithoutValue(t, attrs, false);
    EndOfTag(t);
  }

  /**
   * Events that emit no markup: everything except vocabulary start and end
   * tags, `<br>` and the end of a paragraph.
   */
  predicate EmitsNoMarkup(e: Event)
  {
    match e
    case ElementStart(name, _, _) => !IsTag(name) && name != "br"
    case ElementEnd(name) => !IsTag(name) && !IsParagraph(name)
    case _ => true
  }

  /** The text runs of an event sequence, concatenated. */
  function TextContent(es: seq<Event>): (r: string)
  {
    if es == [] then ""
    else TextContent(es[..|es| - 1]) + (if es[|es| - 1].Text? then es[|es| - 1].value else "")
  }

  /**
   * When no event emits markup, the output is just the text runs,
   * concatenated: wrapper elements are dropped and their text kept.
   */
  lemma {:induction false} PlainTextPassesThrough(es: seq<Event>)
    requires forall i :: 0 <= i < |es| ==> EmitsNoMarkup(es[i])
    ensures Converted(es) == TextContent(es)
  {
    if es != [] {
      var es' := es[..|es| - 1];
      assert forall i :: 0 <= i < |es'| ==> EmitsNoMarkup(es'[i]) by {
        forall i | 0 <= i < |es'| ensures EmitsNoMarkup(es'[i]) {
          assert es'[i] == es[i];
        }
      }
      PlainTextPassesThrough(es');
    }
  }

  /**
   * Events that are neither text nor markup-emitting contribute nothing, so
   * a sequence of them converts to the empty string.
   */
  lemma {:induction false} SilentEventsDropped(es: seq<Event>)
    requires forall i :: 0 <= i < |es| ==> EmitsNoMarkup(es[i]) && !es[i].Text?
    ensures Converted(es) == ""
  {
    if es != [] {
      var es' := es[..|es| - 1];
      assert forall i :: 0 <= i < |es'| ==> EmitsNoMarkup(es'[i]) && !es'[i].Text? by {
        forall i | 0 <= i < |es'| ensures EmitsNoMarkup(es'[i]) && !es'[i].Text? {
          assert es'[i] == es[i];
        }
      }
      SilentEventsDropped(es');
    }
  }

  // ---------------------------------------------------------------------
  // Typical shapes, and worked examples of them
  // ---------------------------------------------------------------------

  /** Three events render as their three contributions, in order. */
  lemma ConvertedThree(a: Event, b: Event, c: Event)
    ensures Converted([a, b, c]) == Contribution(a) + Contribution(b) + Contribution(c)
  {
    ConvertedSingle(a);
    ConvertedSnoc([a], b);
    assert [a] + [b] == [a, b];
    ConvertedSnoc([a, b], c);
    assert [a, b] + [c] == [a, b, c];
  }

  /** A line break between two text runs. */
  lemma BreakBetweenTexts(a: string, b: string, attrs: map<string, string>, isEmpty: bool)
    ensures Converted([Text(a), ElementStart("br", attrs, isEmpty), Text(b)]) == a + NL + b
  {
    ConvertedThree(Text(a), ElementStart("br", attrs, isEmpty), Text(b));
    StartOfBreak(attrs, isEmpty);
  }

  /** A paragraph holding one text run renders as the text and a line break. */
  lemma ParagraphOfText(name: string, attrs: map<string, string>, v: string)
    requires IsParagraph(name)
    ensures Converted([ElementStart(name, attrs, false), Text(v), ElementEnd(name)]) == v + NL
  {
    ConvertedThree(ElementStart(name, attrs, false), Text(v), ElementEnd(name));
    ParagraphNamesAreNotTags();
    StartOfOtherElement(name, attrs, false);
    EndOfParagraph(name);
  }

  /**
   * A vocabulary element carrying a non-blank value in its own-named
   * attribute, around one text run.
   */
  lemma ValuedTagAroundText(t: string, attrs: map<string, string>, x: string)
    requires IsTag(t) && t in attrs && !AllWhiteSpace(attrs[t])
    ensures Converted([ElementStart(t, attrs, false), Text(x), ElementEnd(t)]) ==
            ("[" + t + "=" + attrs[t] + "]") + x + ("[/" + t + "]")
  {
    ConvertedThree(ElementStart(t, attrs, false), Text(x), ElementEnd(t));
    StartOfTagWithValue(t, attrs, false);
    EndOfTag(t);
  }

  /**
   * A self-closing vocabulary element is opened and never closed: the reader
   * yields no end event for it, and the start event alone gives `[t]`.
   */
  lemma SelfClosingTagNotClosed(t: string, attrs: map<string, string>)
    requires IsTag(t)
    requires t !in attrs || AllWhiteSpace(attrs[t])
    ensures Converted([ElementStart(t, attrs, true)]) == "[" + t + "]"
  {
    ConvertedSingle(ElementStart(t, attrs, true));
    StartOfTagWithoutValue(t, attrs, true);
  }

  lemma ExampleBold()
    ensures Converted([ElementStart("b", map[], false), Text("hello"), ElementEnd("b")]) == "[b]hello[/b]"
  {
    assert ("[" + "b" + "]") + "hello" + ("[/" + "b" + "]") == "[b]hello[/b]";
    assert BBTags[0] == "b";
    ConvertedThree(ElementStart("b", map[], false), Text("hello"), ElementEnd("b"));
    StartOfTagWithoutValue("b", map[], false);
    EndOfTag("b");
  }

  lemma ExampleColorValue()
    ensures Converted([ElementStart("color", map["color" := "red"], false), Text("x"), ElementEnd("color")])
            == "[color=red]x[/color]"
  {
    assert ("[" + "color" + "=" + "red" + "]") + "x" + ("[/" + "color" + "]") == "[color=red]x[/color]";
    assert BBTags[15] == "color";
    assert !IsWhiteSpace("red"[0]);
    ValuedTagAroundText("color", map["color" := "red"], "x");
  }

  /** The attribute value is emitted as read, surrounding spaces included. */
  lemma ExampleUntrimmedValue()
    ensures Converted([ElementStart("color", map["color" := " red "], false), Text("x"), ElementEnd("color")])
            == "[color= red ]x[/color]"
  {
    assert ("[" + "color" + "=" + " red " + "]") + "x" + ("[/" + "color" + "]") == "[color= red ]x[/color]";
    assert BBTags[15] == "color";
    assert !IsWhiteSpace(" red "[1]);
    ValuedTagAroundText("color", map["color" := " red "], "x");
  }

  lemma ExampleWrapperDropped()
    ensures Converted([ElementStart("div", map[], false), Text("x"), ElementEnd("div")]) == "x"
  {
    assert !IsTag("div");
    ConvertedThree(ElementStart("div", map[], false), Text("x"), ElementEnd("div"));
    StartOfOtherElement("div", map[], false);
    EndOfOtherElement("div");
  }

  lemma ExampleLineBreak()
    ensures Converted([Text("a"), ElementStart("br", map[], true), Text("b")]) == "a" + NL + "b"
  {
    BreakBetweenTexts("a", "b", map[], true);
  }

  lemma ExampleParagraphs()
    ensures Converted([ElementStart("p", map[], false), Text("one"), ElementEnd("p"),
                       ElementStart("p", map[], false), Text("two"), ElementEnd("p")])
            == "one" + NL + "two" + NL
  {
    var one := [ElementStart("p", map[], false), Text("one"), ElementEnd("p")];
    var two := [ElementStart("p", map[], false), Text("two"), ElementEnd("p")];
    ParagraphOfText("p", map[], "one");
    ParagraphOfText("p", map[], "two");
    ConvertedAppend(one, two);
    assert one + two == [ElementStart("p", map[], false), Text("one"), ElementEnd("p"),
                         ElementStart("p", map[], false), Text("two"), ElementEnd("p")];
  }

  lemma ExampleSelfClosingRule()
    ensures Converted([ElementStart("hr", map[], true)]) == "[hr]"
  {
    assert BBTags[13] == "hr";
    SelfClosingTagNotClosed("hr", map[]);
  }
}
