/** What each component kind reads from its block text and what its `text`
    getter writes, stated on values: `CKStandard`, `CKTimezone`, `CKEvent`,
    `CKToDo`, `CKFreeBusy` and `CKCalendar`. `CKAlarm`, `CKJournal` and
    `CKDaylight` are not part of this model beyond the span they are built
    from, which is all they hold here. */
module Components {
  import opened Results
  import opened Text
  import opened Search
  import opened Attributes
  import opened Registry
  import opened Extraction

  /** A component this model keeps opaque: the span it was built from, which
      is also its text. */
  datatype Opaque = Opaque(text: string)

  /** The contents of a `CKEvent`. */
  datatype EventValue = EventValue(attributes: seq<Attribute>, alarms: seq<Opaque>)

  /** The contents of a `CKTimezone`; each standard is the attribute list of
      one `CKStandard`. */
  datatype TimezoneValue = TimezoneValue(attributes: seq<Attribute>, standards: seq<seq<Attribute>>, daylights: seq<Opaque>)

  /** The contents of a `CKCalendar`; each to-do and each free/busy entry is
      the attribute list of one `CKToDo` or `CKFreeBusy`. */
  datatype CalendarValue = CalendarValue(
    attributes: seq<Attribute>,
    timezones: seq<TimezoneValue>,
    events: seq<EventValue>,
    todos: seq<seq<Attribute>>,
    journals: seq<Opaque>,
    freebusys: seq<seq<Attribute>>)

  // ---- `try texts.map(f)` ----

  /** A throwing `map`: every text is turned into a value in order, and the
      first error ends it. */
  function MapAll<T>(f: string -> Result<T>, texts: seq<string>): (r: Result<seq<T>>)
    decreases |texts|
    ensures r.Ok? ==> |r.value| == |texts|
  {
    if texts == [] then Ok([])
    else match MapAll(f, texts[..|texts| - 1])
      case Err(e) => Err(e)
      case Ok(vs) =>
        match f(texts[|texts| - 1])
        case Err(e) => Err(e)
        case Ok(v) => Ok(vs + [v])
  }

  /** A successful map holds the value of every text, in order. */
  lemma {:induction false} MapAllOk<T>(f: string -> Result<T>, texts: seq<string>)
    requires MapAll(f, texts).Ok?
    ensures forall i | 0 <= i < |texts| :: f(texts[i]) == Ok(MapAll(f, texts).value[i])
  {
    if texts != [] {
      var init := texts[..|texts| - 1];
      MapAllOk(f, init);
      assert forall i | 0 <= i < |init| :: texts[i] == init[i];
    }
  }

  /** A map fails exactly when some text fails, and then with the error of
      the first text that fails. */
  lemma {:induction false} MapAllErr<T>(f: string -> Result<T>, texts: seq<string>)
    ensures MapAll(f, texts).Err? <==> exists i | 0 <= i < |texts| :: f(texts[i]).Err?
    ensures MapAll(f, texts).Err? ==>
      exists i | 0 <= i < |texts| ::
        f(texts[i]) == Err(MapAll(f, texts).error) && forall j | 0 <= j < i :: f(texts[j]).Ok?
  {
    if texts != [] {
      var n := |texts| - 1;
      var init := texts[..n];
      MapAllErr(f, init);
      assert forall i | 0 <= i < n :: texts[i] == init[i];
      if MapAll(f, init).Ok? {
        MapAllOk(f, init);
      }
    }
  }

  /** One more text at the end. */
  lemma MapAllSnoc<T>(f: string -> Result<T>, a: seq<string>, t: string)
    ensures MapAll(f, a + [t]) ==
      match MapAll(f, a)
      case Err(e) => Err(e)
      case Ok(vs) => (match f(t) case Err(e) => Err(e) case Ok(v) => Ok(vs + [v]))
  {
    assert (a + [t])[..|a|] == a;
  }

  /** Once a prefix fails, nothing after it is looked at. */
  lemma {:induction false} MapAllStops<T>(f: string -> Result<T>, a: seq<string>, b: seq<string>)
    requires MapAll(f, a).Err?
    ensures MapAll(f, a + b) == MapAll(f, a)
    decreases |b|
  {
    if b == [] {
      assert a + b == a;
    } else {
      var n := |b| - 1;
      MapAllStops(f, a, b[..n]);
      assert (a + b)[..|a + b| - 1] == a + b[..n];
    }
  }

  /** `CKAlarm.init(from:)`, `CKJournal.init(from:)` and
      `CKDaylight.init(from:)` for each span, in order. Their code is not
      part of this model, so here they never fail. */
  function Opaques(texts: seq<string>): (os: seq<Opaque>)
    ensures |os| == |texts|
    ensures forall i | 0 <= i < |texts| :: os[i].text == texts[i]
  {
    seq(|texts|, i requires 0 <= i < |texts| => Opaque(texts[i]))
  }

  // ---- parsing each kind ----

  /** `CKStandard.init(from:)`: the shared destructive extraction with the
      STANDARD keys in declaration order. */
  function ParseStandard(s: string): Result<seq<Attribute>> {
    Consume(s, StandardKeys)
  }

  /** `CKToDo.init(from:)`: destructive, over the VTODO keys. */
  function ParseTodo(s: string): Result<seq<Attribute>> {
    Consume(s, TodoKeys)
  }

  /** `CKFreeBusy.init(from:)`: destructive, over the VFREEBUSY keys. */
  function ParseFreeBusy(s: string): Result<seq<Attribute>> {
    Consume(s, FreeBusyKeys)
  }

  /** `CKEvent.init(from:)`: the attributes, read without deleting anything,
      then one alarm per VALARM block of the same text. */
  function ParseEvent(s: string): Result<EventValue> {
    match Harvest(s, EventKeys, false)
    case Err(e) => Err(e)
    case Ok(attrs) => Ok(EventValue(attrs, Opaques(BlockTexts(s, "VALARM"))))
  }

  /** `CKTimezone.init(from:)`: the attributes with the inverted guard, the
      standards, then the daylights, which are read with the STANDARD
      pattern as well. */
  function ParseTimezone(s: string): Result<TimezoneValue> {
    TimezoneOf(Harvest(s, TimezoneKeys, true), BlockTexts(s, "STANDARD"))
  }

  /** A timezone from its harvested attributes and its STANDARD block
      texts. */
  function TimezoneOf(attrs: Result<seq<Attribute>>, blocks: seq<string>): Result<TimezoneValue> {
    match attrs
    case Err(e) => Err(e)
    case Ok(a) =>
      match MapAll(ParseStandard, blocks)
      case Err(e) => Err(e)
      case Ok(standards) => Ok(TimezoneValue(a, standards, Opaques(blocks)))
  }

  /** `CKCalendar.init(with:)`: attributes, timezones, events, to-dos,
      journals, free/busy entries, each read from the whole calendar text,
      and the first error ends it. */
  function ParseCalendar(s: string): Result<CalendarValue> {
    match Harvest(s, CalendarKeys, false)
    case Err(e) => Err(e)
    case Ok(attrs) =>
      match MapAll(ParseTimezone, BlockTexts(s, "VTIMEZONE"))
      case Err(e) => Err(e)
      case Ok(timezones) =>
        match MapAll(ParseEvent, BlockTexts(s, "VEVENT"))
        case Err(e) => Err(e)
        case Ok(events) =>
          match MapAll(ParseTodo, BlockTexts(s, "VTODO"))
          case Err(e) => Err(e)
          case Ok(todos) =>
            match MapAll(ParseFreeBusy, BlockTexts(s, "VFREEBUSY"))
            case Err(e) => Err(e)
            case Ok(freebusys) =>
              Ok(CalendarValue(attrs, timezones, events, todos, Opaques(BlockTexts(s, "VJOURNAL")), freebusys))
  }

  /** An event holds one alarm per VALARM block, in source order. Alarm
      parsing never fails here, so an event fails only when its attributes
      do. */
  lemma EventShape(s: string)
    ensures ParseEvent(s).Ok? <==> Harvest(s, EventKeys, false).Ok?
    ensures ParseEvent(s).Ok? ==>
      ParseEvent(s).value.attributes == Harvest(s, EventKeys, false).value
      && |ParseEvent(s).value.alarms| == |Matches(s, BlockPattern("VALARM"))|
      && forall i | 0 <= i < |ParseEvent(s).value.alarms| ::
           ParseEvent(s).value.alarms[i].text == BlockTexts(s, "VALARM")[i]
  {
  }

  /** A timezone has one standard and one daylight per STANDARD block, in
      source order: the daylights never come from DAYLIGHT blocks. It fails
      exactly when its attributes or one of those blocks fails. */
  lemma TimezoneShape(s: string)
    ensures ParseTimezone(s).Err? <==>
      Harvest(s, TimezoneKeys, true).Err?
      || exists i | 0 <= i < |BlockTexts(s, "STANDARD")| :: ParseStandard(BlockTexts(s, "STANDARD")[i]).Err?
    ensures ParseTimezone(s).Ok? ==>
      var v := ParseTimezone(s).value;
      && |v.standards| == |v.daylights| == |Matches(s, BlockPattern("STANDARD"))|
      && (forall i | 0 <= i < |v.daylights| :: v.daylights[i].text == BlockTexts(s, "STANDARD")[i])
      && (forall i | 0 <= i < |v.standards| :: Ok(v.standards[i]) == ParseStandard(BlockTexts(s, "STANDARD")[i]))
  {
    TimezoneOfShape(Harvest(s, TimezoneKeys, true), BlockTexts(s, "STANDARD"));
  }

  lemma TimezoneOfShape(attrs: Result<seq<Attribute>>, blocks: seq<string>)
    ensures TimezoneOf(attrs, blocks).Err? <==>
      attrs.Err? || exists i | 0 <= i < |blocks| :: ParseStandard(blocks[i]).Err?
    ensures TimezoneOf(attrs, blocks).Ok? ==>
      var v := TimezoneOf(attrs, blocks).value;
      && |v.standards| == |v.daylights| == |blocks|
      && (forall i | 0 <= i < |v.daylights| :: v.daylights[i].text == blocks[i])
      && (forall i | 0 <= i < |v.standards| :: Ok(v.standards[i]) == ParseStandard(blocks[i]))
  {
    MapAllErr(ParseStandard, blocks);
    if MapAll(ParseStandard, blocks).Ok? {
      MapAllOk(ParseStandard, blocks);
    }
  }

  /** The calendar succeeds exactly when each of its five throwing steps
      does, and then holds what each produced. */
  lemma CalendarParts(s: string)
    ensures ParseCalendar(s).Ok? <==>
      && Harvest(s, CalendarKeys, false).Ok?
      && MapAll(ParseTimezone, BlockTexts(s, "VTIMEZONE")).Ok?
      && MapAll(ParseEvent, BlockTexts(s, "VEVENT")).Ok?
      && MapAll(ParseTodo, BlockTexts(s, "VTODO")).Ok?
      && MapAll(ParseFreeBusy, BlockTexts(s, "VFREEBUSY")).Ok?
    ensures ParseCalendar(s).Ok? ==>
      ParseCalendar(s).value == CalendarValue(
        Harvest(s, CalendarKeys, false).value,
        MapAll(ParseTimezone, BlockTexts(s, "VTIMEZONE")).value,
        MapAll(ParseEvent, BlockTexts(s, "VEVENT")).value,
        MapAll(ParseTodo, BlockTexts(s, "VTODO")).value,
        Opaques(BlockTexts(s, "VJOURNAL")),
        MapAll(ParseFreeBusy, BlockTexts(s, "VFREEBUSY")).value)
  {
  }

  /** A map over the blocks of a tag holds one value per block, in source
      order, when it succeeds, and fails when any block does. */
  lemma BlocksMapped<T>(f: string -> Result<T>, s: string, tag: string)
    ensures MapAll(f, BlockTexts(s, tag)).Ok? ==>
      && |MapAll(f, BlockTexts(s, tag)).value| == |Matches(s, BlockPattern(tag))|
      && forall i | 0 <= i < |BlockTexts(s, tag)| :: Ok(MapAll(f, BlockTexts(s, tag)).value[i]) == f(BlockTexts(s, tag)[i])
    ensures (exists i | 0 <= i < |BlockTexts(s, tag)| :: f(BlockTexts(s, tag)[i]).Err?) ==>
      MapAll(f, BlockTexts(s, tag)).Err?
  {
    MapAllErr(f, BlockTexts(s, tag));
    if MapAll(f, BlockTexts(s, tag)).Ok? {
      MapAllOk(f, BlockTexts(s, tag));
    }
  }

  /** A calendar holds one event per VEVENT block and one to-do per VTODO
      block, in source order; any event or to-do that fails makes the whole
      calendar fail. */
  lemma CalendarEventsAndTodos(s: string)
    ensures ParseCalendar(s).Ok? ==>
      var v := ParseCalendar(s).value;
      && |v.events| == |Matches(s, BlockPattern("VEVENT"))|
      && (forall i | 0 <= i < |v.events| :: Ok(v.events[i]) == ParseEvent(BlockTexts(s, "VEVENT")[i]))
      && |v.todos| == |Matches(s, BlockPattern("VTODO"))|
      && (forall i | 0 <= i < |v.todos| :: Ok(v.todos[i]) == ParseTodo(BlockTexts(s, "VTODO")[i]))
    ensures (exists i | 0 <= i < |BlockTexts(s, "VEVENT")| :: ParseEvent(BlockTexts(s, "VEVENT")[i]).Err?)
            ==> ParseCalendar(s).Err?
    ensures (exists i | 0 <= i < |BlockTexts(s, "VTODO")| :: ParseTodo(BlockTexts(s, "VTODO")[i]).Err?)
            ==> ParseCalendar(s).Err?
  {
    CalendarParts(s);
    BlocksMapped(ParseEvent, s, "VEVENT");
    BlocksMapped(ParseTodo, s, "VTODO");
  }

  /** The same for timezones, journals and free/busy entries. */
  lemma CalendarOtherChildren(s: string)
    ensures ParseCalendar(s).Ok? ==>
      var v := ParseCalendar(s).value;
      && |v.timezones| == |Matches(s, BlockPattern("VTIMEZONE"))|
      && (forall i | 0 <= i < |v.timezones| :: Ok(v.timezones[i]) == ParseTimezone(BlockTexts(s, "VTIMEZONE")[i]))
      && |v.journals| == |Matches(s, BlockPattern("VJOURNAL"))|
      && (forall i | 0 <= i < |v.journals| :: v.journals[i].text == BlockTexts(s, "VJOURNAL")[i])
      && |v.freebusys| == |Matches(s, BlockPattern("VFREEBUSY"))|
      && (forall i | 0 <= i < |v.freebusys| :: Ok(v.freebusys[i]) == ParseFreeBusy(BlockTexts(s, "VFREEBUSY")[i]))
    ensures (exists i | 0 <= i < |BlockTexts(s, "VTIMEZONE")| :: ParseTimezone(BlockTexts(s, "VTIMEZONE")[i]).Err?)
            ==> ParseCalendar(s).Err?
    ensures (exists i | 0 <= i < |BlockTexts(s, "VFREEBUSY")| :: ParseFreeBusy(BlockTexts(s, "VFREEBUSY")[i]).Err?)
            ==> ParseCalendar(s).Err?
  {
    CalendarParts(s);
    BlocksMapped(ParseTimezone, s, "VTIMEZONE");
    BlocksMapped(ParseFreeBusy, s, "VFREEBUSY");
  }

  // ---- the `text` getters ----

  /** `for item in items { contents += item.text }`. */
  ghost function ConcatMap<T>(f: T -> string, xs: seq<T>): string
    decreases |xs|
  {
    if xs == [] then [] else ConcatMap(f, xs[..|xs| - 1]) + f(xs[|xs| - 1])
  }

  lemma {:induction false} ConcatMapAppend<T>(f: T -> string, a: seq<T>, b: seq<T>)
    ensures ConcatMap(f, a + b) == ConcatMap(f, a) + ConcatMap(f, b)
    decreases |b|
  {
    if b == [] {
      assert a + b == a;
    } else {
      var n := |b| - 1;
      ConcatMapAppend(f, a, b[..n]);
      assert (a + b)[..|a + b| - 1] == a + b[..n];
    }
  }

  /** One more element at the end. */
  lemma ConcatMapSnoc<T>(f: T -> string, xs: seq<T>, i: nat)
    requires i < |xs|
    ensures ConcatMap(f, xs[..i + 1]) == ConcatMap(f, xs[..i]) + f(xs[i])
  {
    assert xs[..i + 1][..i] == xs[..i];
  }

  function OpaqueText(o: Opaque): string { o.text }

  /** `begin + contents + end`, the shape of every `text` getter. */
  ghost function Block(begin: string, contents: string, end: string): string {
    begin + contents + end
  }

  /** A block starts with its BEGIN line and ends with its END line. */
  lemma BlockFramed(begin: string, contents: string, end: string)
    ensures HasPrefix(Block(begin, contents, end), begin)
    ensures HasSuffix(Block(begin, contents, end), end)
  {
    var t := Block(begin, contents, end);
    assert t[..|begin|] == begin;
    assert t[|t| - |end|..] == end;
  }

  ghost function AttributesText(items: seq<Attribute>): string {
    ConcatMap(Serialized, items)
  }

  ghost function StandardText(items: seq<Attribute>): string {
    Block("BEGIN:STANDARD\r\n", AttributesText(items), "END:STANDARD\r\n")
  }

  ghost function TodoText(items: seq<Attribute>): string {
    Block("BEGIN:VTODO\r\n", AttributesText(items), "END:VTODO\r\n")
  }

  ghost function FreeBusyText(items: seq<Attribute>): string {
    Block("BEGIN:VFREEBUSY\r\n", AttributesText(items), "END:VFREEBUSY\r\n")
  }

  ghost function EventText(v: EventValue): string {
    Block("BEGIN:VEVENT\r\n", AttributesText(v.attributes) + ConcatMap(OpaqueText, v.alarms), "END:VEVENT\r\n")
  }

  ghost function TimezoneText(v: TimezoneValue): string {
    Block("BEGIN:VTIMEZONE\r\n",
      AttributesText(v.attributes) + ConcatMap(StandardText, v.standards) + ConcatMap(OpaqueText, v.daylights),
      "END:VTIMEZONE\r\n")
  }

  /** The calendar text: the BEGIN line, then the attributes, timezones,
      events, to-dos, journals and free/busy entries, then `END:VCALENDAR`
      without a CRLF, unlike every other kind. */
  ghost function CalendarText(v: CalendarValue): string {
    Block("BEGIN:VCALENDAR\r\n", CalendarContents(v), "END:VCALENDAR")
  }

  /** What precedes the events, the events, and what follows them. */
  ghost function CalendarContents(v: CalendarValue): string {
    BeforeEvents(v) + ConcatMap(EventText, v.events) + AfterEvents(v)
  }

  ghost function BeforeEvents(v: CalendarValue): string {
    AttributesText(v.attributes) + ConcatMap(TimezoneText, v.timezones)
  }

  ghost function AfterEvents(v: CalendarValue): string {
    ConcatMap(TodoText, v.todos) + ConcatMap(OpaqueText, v.journals) + ConcatMap(FreeBusyText, v.freebusys)
  }

  lemma Regroup(h: string, a: string, b: string, c: string, t: string)
    ensures h + (a + b + c) + t == (h + a) + b + (c + t)
  {
  }

  /** The calendar text starts with its BEGIN line and ends with
      `END:VCALENDAR`, not with CRLF. */
  lemma CalendarTextFramed(v: CalendarValue)
    ensures HasPrefix(CalendarText(v), "BEGIN:VCALENDAR\r\n")
    ensures HasSuffix(CalendarText(v), "END:VCALENDAR") && !HasSuffix(CalendarText(v), CRLF)
  {
    var end := "END:VCALENDAR";
    BlockFramed("BEGIN:VCALENDAR\r\n", CalendarContents(v), end);
    var t := CalendarText(v);
    assert t[|t| - 2..] == end[|end| - 2..];
    assert end[|end| - 2..] == "AR";
  }

  /** Each event's text appears whole in the calendar contents, after the
      calendar's attributes, timezones and earlier events, and before the
      later events and everything that follows them. */
  lemma CalendarHoldsEvent(v: CalendarValue, i: nat)
    requires i < |v.events|
    ensures CalendarContents(v) ==
      (BeforeEvents(v) + ConcatMap(EventText, v.events[..i])) + EventText(v.events[i])
      + (ConcatMap(EventText, v.events[i + 1..]) + AfterEvents(v))
  {
    var es := v.events;
    assert es == es[..i] + [es[i]] + es[i + 1..];
    ConcatMapAppend(EventText, es[..i] + [es[i]], es[i + 1..]);
    ConcatMapAppend(EventText, es[..i], [es[i]]);
    assert [es[i]][..0] == [];
    assert ConcatMap(EventText, [es[i]]) == EventText(es[i]);
    Regroup(BeforeEvents(v), ConcatMap(EventText, es[..i]), EventText(es[i]), ConcatMap(EventText, es[i + 1..]), AfterEvents(v));
  }

  /** Every other kind's text is framed by its BEGIN and END lines, and so
      ends with CRLF. */
  lemma ComponentTextsFramed(items: seq<Attribute>, e: EventValue, z: TimezoneValue)
    ensures HasPrefix(StandardText(items), "BEGIN:STANDARD\r\n") && HasSuffix(StandardText(items), "END:STANDARD\r\n")
    ensures HasPrefix(TodoText(items), "BEGIN:VTODO\r\n") && HasSuffix(TodoText(items), "END:VTODO\r\n")
    ensures HasPrefix(FreeBusyText(items), "BEGIN:VFREEBUSY\r\n") && HasSuffix(FreeBusyText(items), "END:VFREEBUSY\r\n")
    ensures HasPrefix(EventText(e), "BEGIN:VEVENT\r\n") && HasSuffix(EventText(e), "END:VEVENT\r\n")
    ensures HasPrefix(TimezoneText(z), "BEGIN:VTIMEZONE\r\n") && HasSuffix(TimezoneText(z), "END:VTIMEZONE\r\n")
  {
    BlockFramed("BEGIN:STANDARD\r\n", AttributesText(items), "END:STANDARD\r\n");
    BlockFramed("BEGIN:VTODO\r\n", AttributesText(items), "END:VTODO\r\n");
    BlockFramed("BEGIN:VFREEBUSY\r\n", AttributesText(items), "END:VFREEBUSY\r\n");
    BlockFramed("BEGIN:VEVENT\r\n", AttributesText(e.attributes) + ConcatMap(OpaqueText, e.alarms), "END:VEVENT\r\n");
    BlockFramed("BEGIN:VTIMEZONE\r\n",
      AttributesText(z.attributes) + ConcatMap(StandardText, z.standards) + ConcatMap(OpaqueText, z.daylights),
      "END:VTIMEZONE\r\n");
  }
}
