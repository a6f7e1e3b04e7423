# iCalendarKit in Dafny

A model of the core of iCalendarKit: the pipeline that turns iCalendar text
(RFC 5545) into a tree of components, and that tree back into text.

The pipeline has six parts:

- **String helpers** (`Text`). Offset-based substrings, deletion of a range,
  and the list forms of `hasPrefix`/`hasSuffix`.
- **Preprocessing** (`Preprocess`). The loops of `CKSerialization.init`:
  - collapse double spaces;
  - unfold CRLF-space and LF-space continuations;
  - collapse blank lines;
  - double every CRLF.
- **Pattern search** (`Search`). The fixed regular expressions of the
  library, written as search functions:
  - `(\r\n)KEY([\s\S]*?)(\r\n)`, `BEGIN:TAG([\s\S]*?)END:TAG` and the
    `X-`/`IANA-` pattern;
  - the two lookaround patterns of the record parser.
  
  Every search is case-insensitive, leftmost, non-greedy and
  non-overlapping.
- **Records** (`Attributes`, `AttributeLaws`). `CKAttribute`'s parser
  `init(from:)` and its serializer `text`, and the laws relating them: which
  path a record takes, the error cases, and the round trips.
- **Registry extraction** (`Registry`, `Extraction`).
  - Each component kind has a key table; each key is a singleton or
    repeatable.
  - A singleton takes the first matching record; a repeatable key takes
    all of them; extension records come last.
  - Calendars, events and timezones read the text without changing it.
  - To-dos, free/busy entries and standards delete every span they parse,
    from the last match to the first.
- **Components** (`Accessors`, `Components`, `ComponentClasses`,
  `Calendars`, `Serializations`, `Attendees`).
  - One `AttributeList` class models the attribute array and the
    `attributes(for:)`, `attribute(for:)`, `set`, `add` and `removeAll`
    accessors that every component class repeats.
  - The classes `Standard`, `Todo`, `FreeBusy`, `Event`, `Timezone` and
    `Calendar` hold such a list and their children.
  - `Serialization` keeps the preprocessed text and reads the calendars
    from it.
  - `Attendees` holds the attendee parameter enumerations.

Pure code is modelled with functions. Each stateful loop of the source is
a method proved equal to such a function; the `hasPrefix`/`hasSuffix` list
loops and the `forEach` renaming, which only compute a value, are functions. The properties are lemmas about those
functions.

Errors are a `Result`. A thrown `CKError.custom` becomes one of three
`ParseError` cases: missing name, malformed parameter, missing value.

## Model

| member | source | states |
|---|---|---|
| Text.WholeRange | iCalendarKit/Others/String+Hub.swift:14-16 | the range starts at 0, spans the whole text, and its substring is the text itself |
| Text.SubstringFrom | iCalendarKit/Others/String+Hub.swift:24-26 | the result has `|s| - i` characters, and character k is `s[i + k]` |
| Text.SubstringTo | iCalendarKit/Others/String+Hub.swift:31-33 | the result has `i` characters and agrees with `s` on them |
| Text.SubstringWith | iCalendarKit/Others/String+Hub.swift:38-40 | an in-bounds range yields `length` characters, read from `[location, location + length)` |
| Text.Remove | iCalendarKit/Others/String+Hub.swift:45-49 | the length drops by exactly the range length; characters before the range keep their offsets; characters after it shift left by the range length |
| Text.SplitAt | iCalendarKit/Others/String+Hub.swift:24-33 | `substring(to: i) + substring(from: i)` is the original text |
| Text.HasPrefixAny | iCalendarKit/Others/String+Hub.swift:54-60 | true exactly when some list element is a prefix of the text, so an empty list gives false |
| Text.HasSuffixAny | iCalendarKit/Others/String+Hub.swift:65-71 | true exactly when some list element is a PREFIX of the text, because each element is tested with `hasPrefix` |
| Text.HasSuffixAnyTestsPrefixes | iCalendarKit/Others/String+Hub.swift:65-71 | the suffix test agrees with the prefix test on every input, and it refuses "X-FOO" for the list ["FOO"] |
| Text.ReplaceAbsent | iCalendarKit/Sources/CKSerialization.swift:31-39 | `replacingOccurrences` leaves text without an occurrence unchanged |
| Text.ReplaceShrinks | iCalendarKit/Sources/CKSerialization.swift:31-38 | a shorter replacement strictly shortens any text that has an occurrence, which is why both collapsing loops terminate |
| Text.ReplaceFirstOccurrence | iCalendarKit/Sources/CKSerialization.swift:31-39 | the replacement keeps the text before the first occurrence, substitutes it, and continues after it |
| Text.JoinSplit | iCalendarKit/Sources/Attributes/CKAttribute.swift:48-56 | splitting at a character loses nothing: joining the pieces with it gives the text back |
| Text.SplitJoin | iCalendarKit/Sources/Attributes/CKAttribute.swift:48-56 | splitting the join of separator-free pieces gives the pieces back |
| Text.SplitAround | iCalendarKit/Sources/Attributes/CKAttribute.swift:48-56 | a separator-free head is the first piece, and the rest is split as before |
| Text.UpperIdempotent | iCalendarKit/Sources/CKCalendar.swift:201-232 | upper-casing twice is upper-casing once, so the name comparison is stable |
| Preprocess.CollapseSpaces | iCalendarKit/Sources/CKSerialization.swift:31-33 | afterwards no double space is left; the text never grows; text without a double space is unchanged |
| Preprocess.CollapseBlankLines | iCalendarKit/Sources/CKSerialization.swift:36-38 | afterwards no CRLF CRLF is left; the text never grows; text without one is unchanged |
| Preprocess.Preprocess | iCalendarKit/Sources/CKSerialization.swift:30-39 | the loops compute the four steps in order: collapse spaces, unfold, collapse blank lines, double the line ends |
| Preprocess.UnfoldSplicesSpaceFold | iCalendarKit/Sources/CKSerialization.swift:34-35 | a line folded with CRLF and a space is spliced back into one line |
| Preprocess.UnfoldKeepsTabFold | iCalendarKit/Sources/CKSerialization.swift:34-35 | a line folded with CRLF and a TAB stays folded |
| Preprocess.DoubleLinesJoin | iCalendarKit/Sources/CKSerialization.swift:39 | lines joined by CRLF end up joined by CRLF CRLF, so every record has a CRLF boundary on both sides |
| Search.NextOccurrence | iCalendarKit/Sources/CKEvent.swift:53-55 | the lazy `[\s\S]*?` stops at the nearest occurrence of what follows it: nothing earlier matches, and None means no occurrence at all |
| Search.NoMatchIffNoHeadFits | iCalendarKit/Sources/Attributes/CKAttribute.swift:134-142 | no match starts at a position exactly when no head alternative, such as `X-` or `IANA-`, is followed there by a tail |
| Search.FirstFittingHeadDecides | iCalendarKit/Sources/Attributes/CKAttribute.swift:134-142 | the first head alternative that fits decides the match, which ends right after the nearest tail |
| Search.FirstMatch | iCalendarKit/Sources/CKSerialization.swift:51-53 | `firstMatch` returns the leftmost match, and None only when no position matches |
| Search.AllMatchesFrom | iCalendarKit/Sources/CKSerialization.swift:51-53 | `matches(in:)` reports in-bounds ranges in increasing order that do not overlap |
| Search.ScanStartsAtFirstMatch | iCalendarKit/Sources/CKSerialization.swift:51-53 | the scan is empty exactly when there is no match, and otherwise starts with the first match |
| Search.ScanYieldsMatches | iCalendarKit/Sources/CKSerialization.swift:51-53 | every reported range is the match that starts at its location |
| Search.ScanIsLeftmost | iCalendarKit/Sources/CKSerialization.swift:51-53 | no match starts before the first reported range or between two consecutive ones |
| Search.ScanIsComplete | iCalendarKit/Sources/CKSerialization.swift:51-53 | no match starts after the last reported range |
| Search.OccursAtLiteral | iCalendarKit/Sources/Attributes/CKAttribute.swift:38-84 | case-insensitive search for a word without letters is literal search |
| Search.Lookaround | iCalendarKit/Sources/Attributes/CKAttribute.swift:36-46 | the lookaround match is the leftmost start after `B` and ends at the nearest following `A`; None means no start exists |
| Search.LookaroundIs | iCalendarKit/Sources/Attributes/CKAttribute.swift:36-46 | the leftmost possible start decides the lookaround match |
| Search.CRLFAfter | iCalendarKit/Sources/Attributes/CKAttribute.swift:59-72 | the nearest CRLF after a prefix is the final one when the value holds none |
| Search.RecordPattern | iCalendarKit/Sources/CKCalendar.swift:32-34 | the record pattern always consumes its tail, so scanning makes progress |
| Search.BlockPattern | iCalendarKit/Sources/CKSerialization.swift:51 | the block pattern always consumes its tail, so scanning makes progress |
| Search.MatchTexts | iCalendarKit/Sources/CKSerialization.swift:55-58 | one text per match, each the substring of its range |
| Search.KeyCapturesLongerName | iCalendarKit/Sources/CKEvent.swift:53-55 | a key matches every record whose name begins with it, in any case |
| Search.RegistryPrefixNames | iCalendarKit/Sources/CKEvent.swift:33 | SEQ, LAST-MOD and RELATED are prefixes of SEQUENCE, LAST-MODIFIED and RELATED-TO |
| Attributes.ParseBare | iCalendarKit/Sources/Attributes/CKAttribute.swift:82-93 | the bare path produces no parameters |
| Attributes.FirstEndingWithCRLF | iCalendarKit/Sources/Attributes/CKAttribute.swift:59-62 | the result is a piece ending with CRLF, and None only when no piece ends with CRLF |
| Attributes.ParseRecord | iCalendarKit/Sources/Attributes/CKAttribute.swift:32-94 | the initializer's loop over the pieces computes the record parse, including its errors |
| Attributes.LessIrreflexive | iCalendarKit/Sources/Attributes/CKAttribute.swift:158-171 | the key order of `sorted(by: >)` is irreflexive |
| Attributes.LessTransitive | iCalendarKit/Sources/Attributes/CKAttribute.swift:158-171 | the key order is transitive |
| Attributes.LessTotal | iCalendarKit/Sources/Attributes/CKAttribute.swift:158-171 | the key order is total, so the descending sort is well defined |
| Attributes.GreatestExists | iCalendarKit/Sources/Attributes/CKAttribute.swift:158-171 | every non-empty key set has a greatest key |
| Attributes.SortedIsDescending | iCalendarKit/Sources/Attributes/CKAttribute.swift:158-171 | the sorted keys are strictly descending and are exactly the key set |
| Attributes.SortKeysDescending | iCalendarKit/Sources/Attributes/CKAttribute.swift:158-171 | the sort method produces the descending key order |
| Attributes.AppendParameters | iCalendarKit/Sources/Attributes/CKAttribute.swift:158-171 | each loop appends one `;K=V` per key, in the given order |
| Attributes.TextOf | iCalendarKit/Sources/Attributes/CKAttribute.swift:151-177 | `text` is the name, then the colon-valued parameters in descending key order, then the other parameters in descending key order, then `:`, the value and CRLF; with no parameters it is name + `:` + value + CRLF |
| Attributes.SerializedWithParameters | iCalendarKit/Sources/Attributes/CKAttribute.swift:157-176 | with parameters, the text is the name, the two parameter groups, `:`, the value and CRLF |
| AttributeLaws.BareRoundTrip | iCalendarKit/Sources/Attributes/CKAttribute.swift:82-156 | a record without parameters parses back from CRLF + its text to the same name, the same value and no parameters |
| AttributeLaws.BareWithoutColonFails | iCalendarKit/Sources/Attributes/CKAttribute.swift:82-86 | a bare record without `:` throws the missing-name error |
| AttributeLaws.NameAfterLeadingCRLF | iCalendarKit/Sources/Attributes/CKAttribute.swift:36-46 | the name runs from after the leading CRLF to the first stop character |
| AttributeLaws.ParameterPathOf | iCalendarKit/Sources/Attributes/CKAttribute.swift:33-56 | a record `NAME;REST` takes the parameter path, named `NAME`, with the `;`-pieces of `REST` |
| AttributeLaws.SplitsAtEquals | iCalendarKit/Sources/Attributes/CKAttribute.swift:50-53 | a piece splits into at least two `=`-parts exactly when it holds `=` |
| AttributeLaws.CollectFailsIffNoEquals | iCalendarKit/Sources/Attributes/CKAttribute.swift:48-56 | the parameter loop throws exactly when some piece that does not end with CRLF holds no `=` |
| AttributeLaws.ExtraEqualsDropped | iCalendarKit/Sources/Attributes/CKAttribute.swift:50-54 | a piece `K=V=W` stores only K with V |
| AttributeLaws.NoLineEndThrows | iCalendarKit/Sources/Attributes/CKAttribute.swift:59-72 | a parameter record with no CRLF-ended piece throws, and the error is the missing value when every piece holds `=` |
| AttributeLaws.NoColonNoValue | iCalendarKit/Sources/Attributes/CKAttribute.swift:63-72 | a value piece without `:` yields no value |
| AttributeLaws.SemicolonInValueFails | iCalendarKit/Sources/Attributes/CKAttribute.swift:33 | the `;` test looks at the whole record, so `NAME:V1;V2` takes the parameter path and throws the missing-value error (as `GEO:1;2` does) |
| AttributeLaws.ValueAfterFirstColon | iCalendarKit/Sources/Attributes/CKAttribute.swift:59-72 | the value is everything between the first `:` of its piece and the CRLF, so a `:` inside a quoted last parameter ends the parameter early |
| AttributeLaws.ParseParameterRecord | iCalendarKit/Sources/Attributes/CKAttribute.swift:32-79 | a one-line parameter record parses to its name and value; the pieces before the last are collected as parameters; the last piece, before the value's `:`, is one more parameter |
| AttributeLaws.CollectPieces | iCalendarKit/Sources/Attributes/CKAttribute.swift:48-56 | the parameter loop stores every `K=V` piece, a later key overwriting an earlier one |
| AttributeLaws.ParsedParameters | iCalendarKit/Sources/Attributes/CKAttribute.swift:48-79 | the pieces written for a dictionary, read back by the loop and the last-parameter step, give the same dictionary |
| AttributeLaws.ParameterRoundTrip | iCalendarKit/Sources/Attributes/CKAttribute.swift:32-177 | a record with plain parameters, at least one of them with a `:`-free value, parses back from CRLF + its text to the same record |
| Registry.FromRaw | iCalendarKit/Sources/CKCalendar.swift:13-35 | `AttributeKey(rawValue:)` finds a case with exactly that raw value, case-sensitively, or none exists |
| Registry.RepeatableKeys | iCalendarKit/Sources/CKEvent.swift:44-50 | exactly the repeatable keys of the table: every result key is a repeatable table key, and every repeatable table key is in the result |
| Registry.UnknownNameIsSingleton | iCalendarKit/Sources/CKCalendar.swift:277-302 | a name that is no raw value and has no extension prefix counts as a singleton |
| Registry.LowercaseNameIsSingleton | iCalendarKit/Sources/CKTodo.swift:280-304 | a name starting with a lower-case letter is repeatable only through an extension prefix |
| Registry.AttendeeSpellings | iCalendarKit/Sources/CKTodo.swift:280-304 | `ATTENDEE` is a repeatable VTODO name while `attendee` counts as a singleton |
| Registry.ExtensionNameIsRepeatable | iCalendarKit/Sources/CKTimezone.swift:224-249 | an `X-` or `IANA-` name is repeatable in every table, in any case |
| Registry.TimezoneNames | iCalendarKit/Sources/CKTimezone.swift:13-31 | all timezone and calendar keys are singletons, yet `X-FOO` and `x-foo` are repeatable timezone names |
| Registry.EventAndTodoTables | iCalendarKit/Sources/CKTodo.swift:13-46 | VEVENT and VTODO have the same ten repeatable keys, in the same order |
| Registry.TableKinds | iCalendarKit/Sources/CKEvent.swift:13-50 | the ten shared keys are repeatable and every other event or to-do key is a singleton |
| Extraction.SequenceOk | iCalendarKit/Sources/CKCalendar.swift:87-118 | a list of parses succeeds exactly when each parse does, and then holds the records in order |
| Extraction.SequenceErr | iCalendarKit/Sources/CKCalendar.swift:87-118 | a failure carries the error of the first failing parse |
| Extraction.ParseAllOk | iCalendarKit/Sources/CKCalendar.swift:87-118 | the spans parse exactly when every span does, and then give one record per span, in order |
| Extraction.ParseAllErr | iCalendarKit/Sources/CKCalendar.swift:87-118 | a failure is the error of the first span that does not parse |
| Extraction.ParseAllAppend | iCalendarKit/Sources/CKCalendar.swift:87-118 | parsing two span lists in turn is parsing their concatenation |
| Extraction.RemoveKeepsEarlier | iCalendarKit/Others/String+Hub.swift:45-49 | deleting a range keeps every earlier range in bounds and reading the same text |
| Extraction.DescendingDeletionSafe | iCalendarKit/Sources/CKFreeBusy.swift:75-87 | deleting the last of ascending ranges keeps all the others valid and unchanged |
| Extraction.PeelKeepsLength | iCalendarKit/Sources/CKFreeBusy.swift:75-87 | every character ends up either in a taken span or in the rest, never in both |
| Extraction.PeelReverses | iCalendarKit/Sources/CKFreeBusy.swift:75-87 | the spans come out in reverse source order |
| Extraction.KeyRanges | iCalendarKit/Sources/CKTimezone.swift:80-111 | a repeatable key selects every match; a singleton selects at most the first; the inverted timezone guard makes a repeatable key select nothing |
| Extraction.SingletonTakesFirst | iCalendarKit/Sources/CKCalendar.swift:87-105 | a singleton key takes exactly the first match, and nothing when there is none |
| Extraction.InvertedGuardUnreachable | iCalendarKit/Sources/CKTimezone.swift:84-91 | for a table of singletons the inverted guard harvests the same spans as the plain one |
| Extraction.AppendMatches | iCalendarKit/Sources/CKCalendar.swift:92-98 | the loop parses the span of each range in order and stops at the first error |
| Extraction.HarvestRecords | iCalendarKit/Sources/CKCalendar.swift:87-118 | the non-destructive loops compute the harvest: keys in table order, extension records last |
| Extraction.PeelRecords | iCalendarKit/Sources/Attributes/CKAttribute.swift:115-129 | the descending loop parses the spans from the last to the first, and on success leaves the text with those spans deleted |
| Extraction.ConsumeRecords | iCalendarKit/Sources/Attributes/CKAttribute.swift:111-144 | the destructive extraction gives the consumption result and, on success, the text left after every parsed span was deleted |
| Extraction.ConsumedKeepsLength | iCalendarKit/Sources/CKTodo.swift:87-120 | parsed spans and remaining text add up to the given text, so no record is captured twice |
| Extraction.ConsumeReversesHarvest | iCalendarKit/Sources/CKTodo.swift:92-99 | for one key, consumption takes the harvested spans in reverse order |
| Accessors.Matching | iCalendarKit/Sources/CKCalendar.swift:219-223 | the filter keeps only attributes whose name matches ignoring case |
| Accessors.Without | iCalendarKit/Sources/CKCalendar.swift:396-398 | `removeAll` keeps only attributes that do not match |
| Accessors.MatchingPartitions | iCalendarKit/Sources/CKCalendar.swift:390-398 | every attribute is either a match or kept by `removeAll` |
| Accessors.FirstIndex | iCalendarKit/Sources/CKCalendar.swift:281 | `firstIndex` is a matching position with no match before it, or None when nothing matches |
| Accessors.LastIndex | iCalendarKit/Sources/CKCalendar.swift:358 | `lastIndex` is a matching position with no match after it, or None when nothing matches |
| Accessors.First | iCalendarKit/Sources/CKCalendar.swift:228-232 | `attribute(for:)` matches the name, and is None exactly when `attributes(for:)` is empty |
| Accessors.FirstIsAtFirstIndex | iCalendarKit/Sources/CKStandard.swift:124-126 | the first of the filtered list is the attribute at the first matching index |
| Accessors.NamedKeepsContent | iCalendarKit/Sources/CKCalendar.swift:279-282 | naming keeps values, parameters and non-empty names, and makes fitting attributes match |
| Accessors.InsertIndexInBounds | iCalendarKit/Sources/CKCalendar.swift:284-292 | after `removeAll` the old first-match index is still a valid insertion point with the same attributes before it |
| Accessors.SetRepeatableReplaces | iCalendarKit/Sources/CKEvent.swift:184-209 | on a repeatable key the matches become exactly the given list, and the other attributes keep their order |
| Accessors.SetRepeatableInPlace | iCalendarKit/Sources/CKEvent.swift:184-209 | the new list sits contiguously at the old first-match index, and everything before it is untouched |
| Accessors.SetEmptyRepeatableClears | iCalendarKit/Sources/CKFreeBusy.swift:175-200 | `set` with an empty list on a repeatable key removes every match |
| Accessors.SetSingletonOverwritesFirst | iCalendarKit/Sources/CKTodo.swift:164-189 | on a present singleton key only the first match changes, and the length stays the same |
| Accessors.SetSingletonAppends | iCalendarKit/Sources/CKCalendar.swift:238-263 | on an absent singleton key the first given attribute is appended and nothing else changes |
| Accessors.SingletonEmptyIsNoOp | iCalendarKit/Sources/CKCalendar.swift:238-263 | for a singleton key, `set` or `add` with an empty list changes nothing |
| Accessors.AddRepeatableGrows | iCalendarKit/Sources/CKEvent.swift:262-286 | `add` on a repeatable key raises the match count by the list length and keeps the other attributes in order |
| Accessors.AddSingletonOverwritesLast | iCalendarKit/Sources/CKFreeBusy.swift:253-277 | `add` on a present singleton key overwrites the last match only; the length is unchanged and the match count never rises |
| Accessors.RemoveAllExact | iCalendarKit/Sources/CKCalendar.swift:390-398 | `removeAll` leaves no match, and the matches of a different name are untouched |
| Accessors.AttributeList.constructor | iCalendarKit/Sources/CKCalendar.swift:65-78 | a list starts with its kind's table and the given attributes |
| Accessors.AttributeList.AttributesFor | iCalendarKit/Sources/CKCalendar.swift:201-223 | `attributes(for:)` is the matching attributes in stored order |
| Accessors.AttributeList.AttributeFor | iCalendarKit/Sources/CKCalendar.swift:210-232 | `attribute(for:)` is the first of them |
| Accessors.AttributeList.Set | iCalendarKit/Sources/CKCalendar.swift:238-302 | the in-place `set` leaves the list that the set specification describes |
| Accessors.AttributeList.Add | iCalendarKit/Sources/CKCalendar.swift:316-378 | the in-place `add` leaves the list that the add specification describes |
| Accessors.AttributeList.SetKey | iCalendarKit/Sources/CKCalendar.swift:238-263 | `set` by key uses the key's own flag |
| Accessors.AttributeList.SetName | iCalendarKit/Sources/CKCalendar.swift:277-302 | `set` by name uses the name rule: a repeatable raw value or an extension prefix |
| Accessors.AttributeList.AddKey | iCalendarKit/Sources/CKCalendar.swift:316-340 | `add` by key uses the key's own flag |
| Accessors.AttributeList.AddName | iCalendarKit/Sources/CKCalendar.swift:354-378 | `add` by name uses the name rule |
| Accessors.AttributeList.RemoveAll | iCalendarKit/Sources/CKCalendar.swift:390-398 | the list loses exactly its matches |
| Components.MapAllOk | iCalendarKit/Sources/CKCalendar.swift:124-133 | a successful throwing `map` holds the value of every text, in order |
| Components.MapAllErr | iCalendarKit/Sources/CKCalendar.swift:124-133 | the map fails exactly when some text fails, with the first failing text's error |
| Components.Opaques | iCalendarKit/Sources/CKCalendar.swift:154-163 | one opaque journal, alarm or daylight per span, holding that span |
| Components.EventShape | iCalendarKit/Sources/CKEvent.swift:79-140 | an event has one alarm per VALARM block in source order; because alarm parsing is modelled as never failing (see Left out), it fails exactly when its attributes do |
| Components.TimezoneShape | iCalendarKit/Sources/CKTimezone.swift:62-141 | a timezone has one standard and one daylight per STANDARD block; DAYLIGHT blocks are never read; it fails exactly when its attributes or a standard parsed from a block fail, since daylight parsing is modelled as never failing (see Left out) |
| Components.CalendarParts | iCalendarKit/Sources/CKCalendar.swift:65-78 | a calendar runs the six throwing steps of `init(with:)` over the whole calendar text and holds what each produced; it succeeds exactly when the five steps that can fail in the model do, since the journal step is modelled as never failing (see Left out) |
| Components.CalendarEventsAndTodos | iCalendarKit/Sources/CKCalendar.swift:124-148 | one event per VEVENT block and one to-do per VTODO block, in order; any failing one fails the calendar |
| Components.CalendarOtherChildren | iCalendarKit/Sources/CKCalendar.swift:154-193 | the same for timezones, journals and free/busy entries |
| Components.BlockFramed | iCalendarKit/Sources/CKEvent.swift:351-363 | every component text starts with its BEGIN line and ends with its END line |
| Components.CalendarTextFramed | iCalendarKit/Sources/CKCalendar.swift:406-434 | the calendar text starts with `BEGIN:VCALENDAR` CRLF and ends with `END:VCALENDAR` without a CRLF |
| Components.CalendarHoldsEvent | iCalendarKit/Sources/CKCalendar.swift:406-434 | each event's text appears whole after the attributes, timezones and earlier events, and before the rest |
| Components.ComponentTextsFramed | iCalendarKit/Sources/CKStandard.swift:314-321 | the STANDARD, VTODO, VFREEBUSY, VEVENT and VTIMEZONE texts are framed by their BEGIN and END lines, ending with CRLF |
| ComponentClasses.AppendAttributeTexts | iCalendarKit/Sources/CKEvent.swift:353-356 | the `+=` loop appends the text of every attribute, in order |
| ComponentClasses.AppendOpaqueTexts | iCalendarKit/Sources/CKEvent.swift:357-360 | the same loop over alarms, journals or daylights |
| ComponentClasses.Standard.FromText | iCalendarKit/Sources/CKStandard.swift:69-73 | `init(from:)` is the destructive extraction over the STANDARD keys, and fails with its error |
| ComponentClasses.Standard.Standards | iCalendarKit/Sources/CKStandard.swift:79-91 | the STANDARD blocks are parsed from the last to the first, so the result is in reverse source order; on success the text has them deleted |
| ComponentClasses.Standard.PeelBlocks | iCalendarKit/Sources/CKStandard.swift:79-91 | the loop over ascending block ranges takes, parses and deletes the last remaining block each time |
| ComponentClasses.Standard.Text | iCalendarKit/Sources/CKStandard.swift:314-321 | `text` is `BEGIN:STANDARD` CRLF, the attributes and `END:STANDARD` CRLF |
| ComponentClasses.Standard.SetKey | iCalendarKit/Sources/CKStandard.swift:133-158 | `set` by key returns the standard itself |
| ComponentClasses.Standard.SetName | iCalendarKit/Sources/CKStandard.swift:174-199 | `set` by name returns the standard itself |
| ComponentClasses.Standard.AddKey | iCalendarKit/Sources/CKStandard.swift:215-239 | `add` by key returns the standard itself |
| ComponentClasses.Standard.AddName | iCalendarKit/Sources/CKStandard.swift:255-279 | `add` by name returns the standard itself |
| ComponentClasses.Standard.RemoveAll | iCalendarKit/Sources/CKStandard.swift:292-307 | `removeAll` returns the standard itself |
| ComponentClasses.StandardsFromTexts | iCalendarKit/Sources/CKTimezone.swift:117-126 | the throwing map over STANDARD spans: every standard in order, or the first error |
| ComponentClasses.Todo.FromText | iCalendarKit/Sources/CKTodo.swift:73-120 | `init(from:)` is the destructive extraction over the VTODO keys |
| ComponentClasses.Todo.Text | iCalendarKit/Sources/CKTodo.swift:330-337 | `text` is `BEGIN:VTODO` CRLF, the attributes and `END:VTODO` CRLF |
| ComponentClasses.TodosFromTexts | iCalendarKit/Sources/CKCalendar.swift:139-148 | the throwing map over VTODO spans |
| ComponentClasses.FreeBusy.FromText | iCalendarKit/Sources/CKFreeBusy.swift:65-130 | `init(from:)` is the destructive extraction over the VFREEBUSY keys |
| ComponentClasses.FreeBusy.FreeBusys | iCalendarKit/Sources/CKFreeBusy.swift:75-87 | the VFREEBUSY blocks are parsed from the last to the first, so the result is in reverse source order; on success the text has them deleted |
| ComponentClasses.FreeBusy.PeelBlocks | iCalendarKit/Sources/CKFreeBusy.swift:75-87 | the descending loop of `freebusys(from:)` |
| ComponentClasses.FreeBusy.Text | iCalendarKit/Sources/CKFreeBusy.swift:346-353 | `text` is `BEGIN:VFREEBUSY` CRLF, the attributes and `END:VFREEBUSY` CRLF |
| ComponentClasses.FreeBusysFromTexts | iCalendarKit/Sources/CKCalendar.swift:169-178 | the throwing map over VFREEBUSY spans |
| ComponentClasses.Event.FromText | iCalendarKit/Sources/CKEvent.swift:79-84 | `init(from:)` harvests the attributes without deleting, then reads the alarms from the same text |
| ComponentClasses.Event.Text | iCalendarKit/Sources/CKEvent.swift:351-363 | `text` is `BEGIN:VEVENT` CRLF, the attributes, the alarms and `END:VEVENT` CRLF |
| ComponentClasses.EventsFromTexts | iCalendarKit/Sources/CKCalendar.swift:124-133 | the throwing map over VEVENT spans |
| Calendars.Timezone.FromText | iCalendarKit/Sources/CKTimezone.swift:62-69 | `init(from:)` reads the attributes with the inverted guard, then the standards, then the daylights |
| Calendars.Timezone.Text | iCalendarKit/Sources/CKTimezone.swift:351-366 | `text` is `BEGIN:VTIMEZONE` CRLF, the attributes, standards and daylights, and `END:VTIMEZONE` CRLF |
| Calendars.TimezonesFromTexts | iCalendarKit/Sources/CKCalendar.swift:184-193 | the throwing map over VTIMEZONE spans |
| Calendars.Calendar.FromText | iCalendarKit/Sources/CKCalendar.swift:65-78 | `init(with:)` reads the attributes, timezones, events, to-dos, journals and free/busy entries, each from the whole calendar text, and fails with the first error; the journal step never fails in this model (see Left out) |
| Calendars.Calendar.Children | iCalendarKit/Sources/CKCalendar.swift:67-76 | the children are read kind by kind in the initializer's order, and the first failing kind ends it |
| Calendars.Calendar.Text | iCalendarKit/Sources/CKCalendar.swift:406-434 | `text` is the BEGIN line, then the attributes, timezones, events, to-dos, journals and free/busy entries, then `END:VCALENDAR` |
| Calendars.ChildValues | iCalendarKit/Sources/CKCalendar.swift:67-76 | on success, one value per span of each kind |
| Calendars.CalendarByChildren | iCalendarKit/Sources/CKCalendar.swift:65-78 | the calendar parse is its attributes followed by its children |
| Serializations.ParseCalendars | iCalendarKit/Sources/CKSerialization.swift:50-60 | on success, one calendar per VCALENDAR span |
| Serializations.NoSpanNoCalendars | iCalendarKit/Sources/CKSerialization.swift:50-60 | a text with no VCALENDAR span gives an empty list, and no error |
| Serializations.OneCalendarPerSpan | iCalendarKit/Sources/CKSerialization.swift:51-59 | one calendar per span, in document order, each the parse of its span |
| Serializations.AnyFailureFails | iCalendarKit/Sources/CKSerialization.swift:55-58 | the read fails exactly when some span fails, with the first failing span's error, so no partial list is returned |
| Serializations.CalendarsFromTexts | iCalendarKit/Sources/CKSerialization.swift:55-58 | the throwing map over VCALENDAR spans |
| Serializations.Serialization.constructor | iCalendarKit/Sources/CKSerialization.swift:30-41 | the kept contents are the preprocessed text |
| Serializations.Serialization.Calendars | iCalendarKit/Sources/CKSerialization.swift:50-60 | `calendars()` is every span parsed as a calendar, in order, or the first error |
| Attendees.CalendarUserTypeFromRaw | iCalendarKit/Sources/Attributes/CKAttendee.swift:14-25 | `CUTYPE(rawValue:)` returns exactly the case with that raw text |
| Attendees.ParticipationStatusFromRaw | iCalendarKit/Sources/Attributes/CKAttendee.swift:28-34 | `PARTSTAT(rawValue:)` returns exactly the case with that raw text |
| Attendees.RoleFromRaw | iCalendarKit/Sources/Attributes/CKAttendee.swift:37-46 | `ROLE(rawValue:)` returns exactly the case with that raw text |
| Attendees.RsvpFromRaw | iCalendarKit/Sources/Attributes/CKAttendee.swift:49-52 | `RSVP(rawValue:)` returns exactly the case with that raw text |
| Attendees.RawValuesAreTheListedOnes | iCalendarKit/Sources/Attributes/CKAttendee.swift:14-52 | the raw texts are exactly the RFC 5545 spellings; NEEDSACTION is read only as `NEEDS-ACTION` |
| Attendees.Attendee | iCalendarKit/Sources/Attributes/CKAttendee.swift:64-66 | the attendee is named ATTENDEE and carries the given value and parameters, and every table that knows the name treats it as repeatable |
| Attendees.AttendeeRoundTrip | iCalendarKit/Sources/Attributes/CKAttendee.swift:64-66 | an attendee without parameters reads back from its own text as the same attendee |
| Attendees.EventAttendeeRepeatable | iCalendarKit/Sources/CKEvent.swift:37-50 | ATTENDEE is a repeatable VEVENT key |
| Attendees.FreeBusyAttendeeRepeatable | iCalendarKit/Sources/CKFreeBusy.swift:25-38 | ATTENDEE is a repeatable VFREEBUSY key |

## Left out

- Reading the file, the URL and file-extension checks, and decoding bytes
  into text in `CKSerialization.init` are I/O. The model starts from the
  decoded text.
- The `NSLock` fields and `NSLock+Hub.swift` are left out: the accessors
  are plain sequential methods. So is the re-entrant locking in
  `attribute(for:)`, which would deadlock.
- Text is a sequence of UTF-16 code units as `char`. `uppercased()` is
  ASCII case folding only; other Unicode case mappings are not modelled.
  Foundation's `contains`, `replacingOccurrences` and `components` are
  taken to compare code units literally, which they do on ASCII text.
- `CKAlarm`, `CKJournal` and `CKDaylight` are not part of this model. Each
  is an opaque value holding the span it was read from, and that span is
  also its text.
- Components.Opaques: `CKAlarm.init(from:)`, `CKJournal.init(from:)` and
  `CKDaylight.init(from:)` are `try` calls in the source
  (CKEvent.swift:137, CKCalendar.swift:160, CKTimezone.swift:138), but
  their code is not part of this model, so the model makes their parsing
  total. An event then fails only through its attributes, a timezone never
  fails through a daylight, and a calendar never fails in its journal step.
  In the source that step runs before the free/busy step, so a journal
  error would be the one reported. The same holds for
  Components.EventShape, Components.CalendarParts,
  Components.TimezoneShape and Calendars.Calendar.FromText.
- Only the fixed patterns the library uses are modelled, as search
  functions, not a general `NSRegularExpression` engine.
- `CKCalendar+Extensions.swift` (EventKit, dates, locations), the demo
  app, `Compatible.swift`, `CKError.swift` and `CKRegularable.swift` are not
  part of this model. The error becomes the `ParseError` datatype, and a
  key becomes a `KeySpec` (raw value and repeatable flag).
- Each accessor appears almost verbatim in every component class. It is
  modelled once, as `Accessors.AttributeList`, which each class holds.
- The overloads that take one attribute instead of a list call the list
  form with a one-element list, so they are not modelled separately.
- Accessors.AttributeList.Set: the source renames the caller's attribute
  objects in place, because `CKAttribute` is a class. The model names
  copies, so the caller's objects are not changed. The same holds for Add,
  SetKey, SetName, AddKey, AddName and the Standard mutators.
- Extraction.ConsumeRecords: says nothing about `contents` when parsing
  throws. The source writes the partly consumed text back through `inout`.
  The same holds for Standard.Standards, FreeBusy.FreeBusys and their
  PeelBlocks loops.
- ComponentClasses.Standard.SetKey: "returns `Self`" is modelled as
  returning the same object (`r == this`). The same holds for the other
  Standard mutators.
