# BBCodeFormatter conversion core, in Dafny

BBCodeFormatter turns XML rich-text markup into BBCode (`[tag]...[/tag]`,
`[tag=value]...[/tag]`). Its one piece of decision logic is
`CodeConverter.ReadAndConvert`. This method reads the XML reader's parse events one at
a time and appends to a single `StringBuilder`. On the start of an
element named in the fixed `bbtags` vocabulary it appends `[name]`, or
`[name=value]` when the element has a non-blank attribute of its own name. On
`<br>` it appends a line break. On the end of a vocabulary element it appends `[/name]`. On the end of
`p`, `para` or `paragraph` it appends a line break. Text is appended verbatim,
and every other event is dropped.

The model has five files:

- `xml_events.dfy` (module `XmlEvents`): the reader's output as a datatype
  `Event` (`ElementStart`, `ElementEnd`, `Text`, `Whitespace`, `Other` with
  the remaining node kinds), plus the reader's `HasAttributes` and
  `GetAttribute` (absent attribute = `None`, the .NET `null`).
- `dotnet_text.dfy` (module `DotNetText`): `Char.IsWhiteSpace` with the .NET
  character set, `String.IsNullOrWhiteSpace`, and `String.Trim` as an
  independent reference definition.
- `concatenation.dfy` (module `Concatenation`): appending one piece per
  element, left to right, and the fact that this distributes over `+`.
- `code_converter.dfy` (module `CodeConverter`): the vocabulary `BBTags`, the
  line break `NL`, the per-event specification `Contribution`, the output of a
  whole stream `Converted`, and the imperative code. `AppendEvent` is one
  iteration of the `switch`. `ReadAndConvert` is the `while` loop over the
  events with its growing buffer, proved to return `Converted(events)`.
- `converter_properties.dfy` (module `ConverterProperties`): lemmas about the
  vocabulary, about each kind of event, about whole event sequences, and
  worked examples.

`Environment.NewLine`, written by `AppendLine()`, depends on the platform. It
is the constant `NL`, and no lemma assumes anything about its value.

Three points of the code's behaviour are easy to misread, and the model
follows the code on each:

- The attribute test is `String.IsNullOrWhiteSpace`. `BlankIffTrimmedEmpty`
  proves that this test is the same as "empty after trimming". The value
  written into `[name=value]` is still the raw attribute value, not the
  trimmed one (`ExampleUntrimmedValue`).
- `IsEmptyElement` is never consulted. A self-closing vocabulary element
  such as `<hr/>` yields one start event and no end event, so it produces `[hr]` and
  no closing tag (`SelfClosingFlagIgnored`, `SelfClosingTagNotClosed`).
- `bbtags` is a `ReadOnlyCollection` searched with ordinal string equality,
  not a hash set. Membership is the same either way: `IsTag` is exact,
  case-sensitive membership in the 24-entry list.

## Model

| member | source | states |
|---|---|---|
| CodeConverter.ReadAndConvert | CodeConverter.cs:103-147 | the buffer that starts empty and is appended to once per event, in order, ends up equal to the concatenation of the events' contributions; loop invariant: after `i` events it holds the output of the first `i` events |
| CodeConverter.AppendEvent | CodeConverter.cs:110-145 | one pass of the switch (HasAttributes, GetAttribute, IsNullOrWhiteSpace, the `br` and paragraph tests) appends exactly the event's specified contribution to the buffer and nothing else |
| CodeConverter.ConvertedStep | CodeConverter.cs:108-146 | processing event `k` after the first `k` appends exactly that event's contribution |
| CodeConverter.ConvertedSnoc | CodeConverter.cs:108-146 | adding one event at the end of the stream adds its contribution at the end of the output |
| Concatenation.ConcatMapAppend | CodeConverter.cs:105-146 | appending a piece per element to one buffer distributes over concatenation of the element sequence, for any per-element function |
| Concatenation.ConcatMapSnoc | CodeConverter.cs:105-146 | one more element adds exactly its piece at the end |
| DotNetText.BlankIffTrimmedEmpty | CodeConverter.cs:118 | a present attribute value counts as null-or-white-space exactly when trimming it leaves the empty string (both directions) |
| ConverterProperties.VocabularyHasTwentyFourNames | CodeConverter.cs:15-42 | the vocabulary has exactly 24 entries, pairwise distinct |
| ConverterProperties.VocabularyIsLowerCase | CodeConverter.cs:15-42 | every vocabulary entry is a non-empty string of lower-case ASCII letters |
| ConverterProperties.TagsAreLowerCase | CodeConverter.cs:113 | any name recognised as a tag is non-empty and all lower-case ASCII, so recognition is case-sensitive (`B`, `Color`, prefixed names are not tags) |
| ConverterProperties.BreakIsNotTag | CodeConverter.cs:15-42 | `br` is not in the vocabulary |
| ConverterProperties.ParagraphNamesAreNotTags | CodeConverter.cs:15-42 | `p`, `para` and `paragraph` are not in the vocabulary |
| ConverterProperties.FontIsNotTag | CodeConverter.cs:15-42 | `font` is not in the vocabulary |
| ConverterProperties.StartOfTagWithoutValue | CodeConverter.cs:113-126 | a vocabulary start tag with no attributes, without an attribute of its own name, or with a blank one emits `[name]` |
| ConverterProperties.StartOfTagWithValue | CodeConverter.cs:118-119 | a vocabulary start tag whose own-named attribute is not blank emits `[name=value]` with the value untrimmed |
| ConverterProperties.StartOfTagCarriesValueIffNotBlank | CodeConverter.cs:115-126 | for a vocabulary start tag, the output is `[name=value]` if the own-named attribute exists and is non-empty after Trim, and `[name]` otherwise |
| ConverterProperties.StartOfBreak | CodeConverter.cs:128-129 | the start of `br` emits exactly one line break, whatever its attributes or self-closing flag |
| ConverterProperties.StartOfOtherElement | CodeConverter.cs:112-130 | the start of any element that is neither a tag nor `br` (including `p`) emits nothing |
| ConverterProperties.FontAttributeIgnored | CodeConverter.cs:122-123 | adding a `font` attribute with any value to any start tag leaves its output unchanged |
| ConverterProperties.SelfClosingFlagIgnored | CodeConverter.cs:112-127 | a start event's output does not depend on whether the element is self-closing |
| ConverterProperties.EndOfTag | CodeConverter.cs:135-136 | the end of a vocabulary element emits `[/name]` |
| ConverterProperties.EndOfParagraph | CodeConverter.cs:137-138 | the end of `p`, `para` or `paragraph` emits exactly one line break |
| ConverterProperties.EndOfOtherElement | CodeConverter.cs:134-139 | the end of any other element, `br` included, emits nothing |
| ConverterProperties.TextVerbatim | CodeConverter.cs:131-133 | a text event's value is appended unchanged |
| ConverterProperties.OtherNodesIgnored | CodeConverter.cs:140-144 | white-space events and every other node kind emit nothing |
| ConverterProperties.ConvertedAppend | CodeConverter.cs:105-146 | the conversion of `a + b` is the conversion of `a` followed by that of `b` |
| ConverterProperties.ConvertedPrefix | CodeConverter.cs:105-146 | the buffer is append-only: the output after the first `k` events is a prefix of the final output, and the rest is the output of the remaining events |
| ConverterProperties.ConvertedSingle | CodeConverter.cs:108-146 | a one-event stream converts to that event's contribution |
| ConverterProperties.WrappedInTag | CodeConverter.cs:113-136 | a vocabulary element without a value, around any content, renders as `[t]`, the content's own rendering unchanged, `[/t]` |
| ConverterProperties.PlainTextPassesThrough | CodeConverter.cs:110-145 | when no event emits markup, the output is exactly the concatenated text runs (wrapper elements dropped, their text kept) |
| ConverterProperties.SilentEventsDropped | CodeConverter.cs:110-145 | a stream of events that are neither text nor markup-emitting converts to the empty string |
| ConverterProperties.ConvertedThree | CodeConverter.cs:108-146 | a three-event stream converts to the three contributions in order |
| ConverterProperties.BreakBetweenTexts | CodeConverter.cs:128-133 | text, `<br>`, text renders as the first text, a line break, the second text |
| ConverterProperties.ParagraphOfText | CodeConverter.cs:128-138 | a paragraph element around one text run renders as the text followed by one line break |
| ConverterProperties.ValuedTagAroundText | CodeConverter.cs:118-136 | a vocabulary element, with any attributes, whose own-named attribute is not blank, around a text run renders as `[t=value]` (the raw value), the text, `[/t]` |
| ConverterProperties.SelfClosingTagNotClosed | CodeConverter.cs:112-127 | a self-closing vocabulary element without a value converts to `[t]` alone, never closed |
| ConverterProperties.ExampleBold | CodeConverter.cs:113-136 | `<b>hello</b>` converts to `[b]hello[/b]` |
| ConverterProperties.ExampleColorValue | CodeConverter.cs:118-136 | `<color color="red">x</color>` converts to `[color=red]x[/color]` |
| ConverterProperties.ExampleUntrimmedValue | CodeConverter.cs:118-119 | `<color color=" red ">x</color>` converts to `[color= red ]x[/color]`: the value is not trimmed |
| ConverterProperties.ExampleWrapperDropped | CodeConverter.cs:128-139 | `<div>x</div>` converts to `x` |
| ConverterProperties.ExampleLineBreak | CodeConverter.cs:128-133 | `a<br/>b` converts to `a`, a line break, `b` |
| ConverterProperties.ExampleParagraphs | CodeConverter.cs:131-138 | `<p>one</p><p>two</p>` converts to `one`, line break, `two`, line break |
| ConverterProperties.ExampleSelfClosingRule | CodeConverter.cs:112-127 | `<hr/>` converts to `[hr]` with no closing tag |

## Left out

- `ReadXML` (CodeConverter.cs:53-69): finding the working directory, creating the `xml` directory and opening the file are filesystem I/O.
- `TestRead` (CodeConverter.cs:71-101) and all of CodeReader.cs: they only print parse events to the console.
- The XML reader and its settings (CodeConverter.cs:44-51, :106): it is a library parser. A document is represented by the event sequence it yields. Well-formedness, DTD processing, entity expansion and the reader's exceptions on malformed input are not modelled. When the reader throws, the exception escapes before line 148, so the converted buffer is never printed (the console lines already written for earlier events, and by `ReadXML`, remain); the model only covers streams that are read to the end.
- `async`/`await`, `ReadAsync` and `GetValueAsync` only schedule the work. The loop is modelled as sequential.
- All console output: the attribute echo (:117), the `font` note (:122-123), the line for other node kinds (:143) and the final print of the buffer (:148). `ReadAndConvert` returns the buffer's contents instead of printing them.
- The concrete value of `Environment.NewLine`. `NL` is a constant of unknown value.
- Character encoding: .NET strings are UTF-16 code units, while Dafny's `char` is a Unicode scalar value. Every character `Char.IsWhiteSpace` accepts is a single unit, so the blank test is the same. Text outside the Basic Multilingual Plane is counted differently but is still copied unchanged.
