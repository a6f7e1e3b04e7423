/** `CKTimezone` and `CKCalendar`: the two kinds whose children are objects
    of the other classes. Each object's contents, read through the objects it
    owns, is the value module Components defines for its kind. */
module Calendars {
  import opened Results
  import opened Search
  import opened Attributes
  import opened Registry
  import opened Extraction
  import opened Accessors
  import opened Components
  import opened ComponentClasses

  // ---- CKTimezone ----

  class Timezone {
    const attributes: AttributeList
    const standards: seq<Standard>
    const daylights: seq<Opaque>

    constructor (items: seq<Attribute>, standards: seq<Standard>, daylights: seq<Opaque>)
      ensures fresh(attributes) && attributes.table == TimezoneKeys && attributes.items == items
      ensures this.standards == standards && this.daylights == daylights
    {
      attributes := new AttributeList(TimezoneKeys, items);
      this.standards := standards;
      this.daylights := daylights;
    }

    /** The attribute lists the timezone's contents are read from. */
    ghost function Footprint(): set<object>
    {
      {attributes} + set st | st in standards :: st.attributes
    }

    ghost function Value(): TimezoneValue
      reads Footprint()
    {
      TimezoneValue(attributes.items, StandardValues(standards), daylights)
    }

    /** `init(from:)`: the attributes with the inverted guard, then the
        standards, then the daylights, all from the same text. */
    static method FromText(contents: string) returns (r: Result<Timezone>)
      ensures r.Err? <==> ParseTimezone(contents).Err?
      ensures r.Err? ==> r.error == ParseTimezone(contents).error
      ensures r.Ok? ==> fresh(r.value.attributes) && r.value.attributes.table == TimezoneKeys
      ensures r.Ok? ==> Ok(r.value.Value()) == ParseTimezone(contents)
    {
      var attrs := HarvestRecords(contents, TimezoneKeys, true);
      if attrs.Err? {
        return Err(attrs.error);
      }
      var standards := StandardsFromTexts(BlockTexts(contents, "STANDARD"));
      if standards.Err? {
        return Err(standards.error);
      }
      var daylights := Opaques(BlockTexts(contents, "STANDARD"));
      var timezone := new Timezone(attrs.value, standards.value, daylights);
      r := Ok(timezone);
    }

    /** `text`. */
    method Text() returns (t: string)
      ensures t == TimezoneText(Value())
    {
      var contents := AppendAttributeTexts("", attributes.items);
      contents := AppendStandardTexts(contents, standards);
      contents := AppendOpaqueTexts(contents, daylights);
      TimezoneTextOf(contents, Value());
      t := "BEGIN:VTIMEZONE\r\n" + contents + "END:VTIMEZONE\r\n";
    }
  }

  lemma TimezoneTextOf(contents: string, v: TimezoneValue)
    requires contents == (("" + AttributesText(v.attributes)) + ConcatMap(StandardText, v.standards)) + ConcatMap(OpaqueText, v.daylights)
    ensures "BEGIN:VTIMEZONE\r\n" + contents + "END:VTIMEZONE\r\n" == TimezoneText(v)
  {
    assert "" + AttributesText(v.attributes) == AttributesText(v.attributes);
  }

  /** Everything the timezones `tzs` read their contents from. */
  ghost function TimezonesFootprint(tzs: seq<Timezone>): set<object>
  {
    set tz, o | tz in tzs && o in tz.Footprint() :: o
  }

  ghost function TimezoneValues(tzs: seq<Timezone>): (vs: seq<TimezoneValue>)
    reads TimezonesFootprint(tzs)
    ensures |vs| == |tzs|
  {
    if tzs == [] then [] else TimezoneValues(tzs[..|tzs| - 1]) + [tzs[|tzs| - 1].Value()]
  }

  ghost predicate TimezonesHold(tzs: seq<Timezone>, vs: seq<TimezoneValue>)
    reads TimezonesFootprint(tzs)
  {
    |tzs| == |vs| && forall k :: 0 <= k < |tzs| ==> tzs[k].Value() == vs[k]
  }

  lemma TimezonesHoldSnoc(tzs: seq<Timezone>, vs: seq<TimezoneValue>, tz: Timezone)
    requires TimezonesHold(tzs, vs)
    ensures TimezonesHold(tzs + [tz], vs + [tz.Value()])
  {
  }

  lemma {:induction false} TimezonesHoldValues(tzs: seq<Timezone>, vs: seq<TimezoneValue>)
    requires TimezonesHold(tzs, vs)
    ensures TimezoneValues(tzs) == vs
    decreases |tzs|
  {
    if tzs != [] {
      TimezonesHoldValues(tzs[..|tzs| - 1], vs[..|vs| - 1]);
    }
  }

  lemma {:induction false} TimezoneValuesAt(tzs: seq<Timezone>, i: nat)
    requires i < |tzs|
    ensures TimezoneValues(tzs)[i] == tzs[i].Value()
    decreases |tzs|
  {
    if i < |tzs| - 1 {
      TimezoneValuesAt(tzs[..|tzs| - 1], i);
    }
  }

  /** `try results.map { try CKTimezone.init(from:) }`. */
  method TimezonesFromTexts(texts: seq<string>) returns (r: Result<seq<Timezone>>)
    ensures r.Err? <==> MapAll(ParseTimezone, texts).Err?
    ensures r.Err? ==> r.error == MapAll(ParseTimezone, texts).error
    ensures r.Ok? ==> TimezoneValues(r.value) == MapAll(ParseTimezone, texts).value
  {
    var out: seq<Timezone> := [];
    ghost var vs: seq<TimezoneValue> := [];
    for i := 0 to |texts|
      invariant MapAll(ParseTimezone, texts[..i]) == Ok(vs)
      invariant TimezonesHold(out, vs)
    {
      TimezonesAllocated(out);
      var item := Timezone.FromText(texts[i]);
      assert TimezonesHold(out, vs);
      if item.Err? {
        TakeSnoc(texts, i);
        MapStopsAt(ParseTimezone, texts[..i], texts[i], texts[i + 1..], vs);
        return Err(item.error);
      }
      MapStep(ParseTimezone, texts, i, vs, item.value.Value());
      TimezonesHoldSnoc(out, vs, item.value);
      out := out + [item.value];
      vs := vs + [item.value.Value()];
    }
    TakeAll(texts);
    TimezonesHoldValues(out, vs);
    r := Ok(out);
  }

  method AppendTimezoneTexts(t0: string, tzs: seq<Timezone>) returns (t: string)
    ensures t == t0 + ConcatMap(TimezoneText, TimezoneValues(tzs))
  {
    ghost var vs := TimezoneValues(tzs);
    TimezonesAllocated(tzs);
    t := t0;
    for i := 0 to |tzs|
      invariant t == t0 + ConcatMap(TimezoneText, vs[..i])
      invariant TimezoneValues(tzs) == vs
    {
      var text := tzs[i].Text();
      TimezoneValuesAt(tzs, i);
      TextStep(TimezoneText, vs, i, t0, t, text);
      t := t + text;
    }
    TakeAll(vs);
  }

  // ---- CKCalendar ----

  class Calendar {
    const attributes: AttributeList
    const timezones: seq<Timezone>
    const events: seq<Event>
    const todos: seq<Todo>
    const journals: seq<Opaque>
    const freebusys: seq<FreeBusy>

    constructor (items: seq<Attribute>, timezones: seq<Timezone>, events: seq<Event>, todos: seq<Todo>,
                 journals: seq<Opaque>, freebusys: seq<FreeBusy>)
      ensures fresh(attributes) && attributes.table == CalendarKeys && attributes.items == items
      ensures this.timezones == timezones && this.events == events && this.todos == todos
      ensures this.journals == journals && this.freebusys == freebusys
    {
      attributes := new AttributeList(CalendarKeys, items);
      this.timezones := timezones;
      this.events := events;
      this.todos := todos;
      this.journals := journals;
      this.freebusys := freebusys;
    }

    /** The attribute lists the calendar's contents are read from. */
    ghost function Footprint(): set<object>
    {
      {attributes} + TimezonesFootprint(timezones)
      + (set ev | ev in events :: ev.attributes)
      + (set td | td in todos :: td.attributes)
      + (set fb | fb in freebusys :: fb.attributes)
    }

    ghost function Value(): CalendarValue
      reads Footprint()
    {
      CalendarValue(attributes.items, TimezoneValues(timezones), EventValues(events), TodoValues(todos),
        journals, FreeBusyValues(freebusys))
    }

    /** `init(with:)`: attributes, timezones, events, to-dos, journals and
        free/busy entries, each read from the whole calendar text. */
    static method FromText(contents: string) returns (r: Result<Calendar>)
      ensures r.Err? <==> ParseCalendar(contents).Err?
      ensures r.Err? ==> r.error == ParseCalendar(contents).error
      ensures r.Ok? ==> fresh(r.value.attributes) && r.value.attributes.table == CalendarKeys
      ensures r.Ok? ==> Ok(r.value.Value()) == ParseCalendar(contents)
    {
      CalendarByChildren(contents);
      var attrs := HarvestRecords(contents, CalendarKeys, false);
      if attrs.Err? {
        return Err(attrs.error);
      }
      var children := Children(BlockTexts(contents, "VTIMEZONE"), BlockTexts(contents, "VEVENT"),
        BlockTexts(contents, "VTODO"), BlockTexts(contents, "VJOURNAL"), BlockTexts(contents, "VFREEBUSY"));
      if children.Err? {
        return Err(children.error);
      }
      var (timezones, events, todos, journals, freebusys) := children.value;
      ghost var values := ChildValues(BlockTexts(contents, "VTIMEZONE"), BlockTexts(contents, "VEVENT"),
        BlockTexts(contents, "VTODO"), BlockTexts(contents, "VJOURNAL"), BlockTexts(contents, "VFREEBUSY")).value;
      TimezonesAllocated(timezones);
      var calendar := new Calendar(attrs.value, timezones, events, todos, journals, freebusys);
      assert calendar.Value() == CalendarValue(attrs.value, values.0, values.1, values.2, values.3, values.4);
      r := Ok(calendar);
    }

    /** The children of `init(with:)`, in its order, from the spans of each
        kind; the first failing kind ends it. */
    static method Children(tzTexts: seq<string>, evTexts: seq<string>, tdTexts: seq<string>,
                           jnTexts: seq<string>, fbTexts: seq<string>)
      returns (r: Result<(seq<Timezone>, seq<Event>, seq<Todo>, seq<Opaque>, seq<FreeBusy>)>)
      ensures r.Err? <==> ChildValues(tzTexts, evTexts, tdTexts, jnTexts, fbTexts).Err?
      ensures r.Err? ==> r.error == ChildValues(tzTexts, evTexts, tdTexts, jnTexts, fbTexts).error
      ensures r.Ok? ==> ChildValues(tzTexts, evTexts, tdTexts, jnTexts, fbTexts)
                        == Ok((TimezoneValues(r.value.0), EventValues(r.value.1), TodoValues(r.value.2),
                               r.value.3, FreeBusyValues(r.value.4)))
    {
      var timezones := TimezonesFromTexts(tzTexts);
      if timezones.Err? {
        return Err(timezones.error);
      }
      ghost var tzv := TimezoneValues(timezones.value);
      TimezonesAllocated(timezones.value);
      var events := EventsFromTexts(evTexts);
      if events.Err? {
        return Err(events.error);
      }
      ghost var evv := EventValues(events.value);
      assert TimezoneValues(timezones.value) == tzv;
      var todos := TodosFromTexts(tdTexts);
      if todos.Err? {
        return Err(todos.error);
      }
      ghost var tdv := TodoValues(todos.value);
      assert TimezoneValues(timezones.value) == tzv;
      assert EventValues(events.value) == evv;
      var journals := Opaques(jnTexts);
      var freebusys := FreeBusysFromTexts(fbTexts);
      if freebusys.Err? {
        return Err(freebusys.error);
      }
      assert TimezoneValues(timezones.value) == tzv;
      assert EventValues(events.value) == evv;
      assert TodoValues(todos.value) == tdv;
      r := Ok((timezones.value, events.value, todos.value, journals, freebusys.value));
    }

    /** `text`: no CRLF after `END:VCALENDAR`. */
    method Text() returns (t: string)
      ensures t == CalendarText(Value())
    {
      ghost var v := Value();
      CalendarAllocated(this);
      var contents := AppendAttributeTexts("", attributes.items);
      assert Value() == v;
      contents := AppendTimezoneTexts(contents, timezones);
      assert Value() == v;
      contents := AppendEventTexts(contents, events);
      assert Value() == v;
      contents := AppendTodoTexts(contents, todos);
      assert Value() == v;
      contents := AppendOpaqueTexts(contents, journals);
      assert Value() == v;
      contents := AppendFreeBusyTexts(contents, freebusys);
      assert Value() == v;
      CalendarTextOf(contents, v);
      t := "BEGIN:VCALENDAR\r\n" + contents + "END:VCALENDAR";
    }
  }

  /** Every attribute list a sequence of timezones reads already exists, so
      creating objects leaves their values alone. */
  lemma TimezonesAllocated(tzs: seq<Timezone>)
    ensures forall o | o in TimezonesFootprint(tzs) :: allocated(o)
  {
  }

  lemma CalendarAllocated(c: Calendar)
    ensures forall o | o in c.Footprint() :: allocated(o)
  {
  }

  /** What `init(with:)` reads after the calendar's own attributes: each
      kind of child in turn, the first failure ending it. */
  function ChildValues(tzTexts: seq<string>, evTexts: seq<string>, tdTexts: seq<string>,
                       jnTexts: seq<string>, fbTexts: seq<string>)
    : (r: Result<(seq<TimezoneValue>, seq<EventValue>, seq<seq<Attribute>>, seq<Opaque>, seq<seq<Attribute>>)>)
    ensures r.Ok? ==> |r.value.0| == |tzTexts| && |r.value.1| == |evTexts| && |r.value.2| == |tdTexts|
                      && |r.value.3| == |jnTexts| && |r.value.4| == |fbTexts|
  {
    match MapAll(ParseTimezone, tzTexts)
    case Err(e) => Err(e)
    case Ok(timezones) =>
      match MapAll(ParseEvent, evTexts)
      case Err(e) => Err(e)
      case Ok(events) =>
        match MapAll(ParseTodo, tdTexts)
        case Err(e) => Err(e)
        case Ok(todos) =>
          match MapAll(ParseFreeBusy, fbTexts)
          case Err(e) => Err(e)
          case Ok(freebusys) => Ok((timezones, events, todos, Opaques(jnTexts), freebusys))
  }

  /** The calendar parse is its attributes followed by its children. */
  lemma CalendarByChildren(s: string)
    ensures ParseCalendar(s) ==
      match Harvest(s, CalendarKeys, false)
      case Err(e) => Err(e)
      case Ok(attrs) =>
        match ChildValues(BlockTexts(s, "VTIMEZONE"), BlockTexts(s, "VEVENT"), BlockTexts(s, "VTODO"),
                          BlockTexts(s, "VJOURNAL"), BlockTexts(s, "VFREEBUSY"))
        case Err(e) => Err(e)
        case Ok(c) => Ok(CalendarValue(attrs, c.0, c.1, c.2, c.3, c.4))
  {
  }

  lemma CalendarTextOf(contents: string, v: CalendarValue)
    requires contents ==
      (((((("" + AttributesText(v.attributes)) + ConcatMap(TimezoneText, v.timezones))
        + ConcatMap(EventText, v.events)) + ConcatMap(TodoText, v.todos))
        + ConcatMap(OpaqueText, v.journals)) + ConcatMap(FreeBusyText, v.freebusys))
    ensures "BEGIN:VCALENDAR\r\n" + contents + "END:VCALENDAR" == CalendarText(v)
  {
    Regroup6(AttributesText(v.attributes), ConcatMap(TimezoneText, v.timezones), ConcatMap(EventText, v.events),
      ConcatMap(TodoText, v.todos), ConcatMap(OpaqueText, v.journals), ConcatMap(FreeBusyText, v.freebusys));
  }

  /** The calendar's six runs of text, grouped as before, at and after the
      events. */
  lemma Regroup6(a: string, tz: string, ev: string, td: string, jn: string, fb: string)
    ensures ((((("" + a) + tz) + ev) + td) + jn) + fb == (a + tz) + ev + (td + jn + fb)
  {
    assert "" + a == a;
  }
}
