/** `CKSerialization`: the preprocessed text of an ics file and the
    calendars read from its VCALENDAR spans. */
module Serializations {
  import opened Results
  import opened Search
  import opened Preprocess
  import opened Components
  import opened ComponentClasses
  import opened Calendars

  /** What `calendars()` yields, as values: `try results.map` over the
      VCALENDAR spans, each parsed as a calendar. */
  function ParseCalendars(s: string): (r: Result<seq<CalendarValue>>)
    ensures r.Ok? ==> |r.value| == |Matches(s, BlockPattern("VCALENDAR"))|
  {
    MapAll(ParseCalendar, BlockTexts(s, "VCALENDAR"))
  }

  /** A text without a VCALENDAR span holds no calendar, and that is no
      error. */
  lemma NoSpanNoCalendars(s: string)
    requires Matches(s, BlockPattern("VCALENDAR")) == []
    ensures ParseCalendars(s) == Ok([])
  {
    assert BlockTexts(s, "VCALENDAR") == [];
  }

  /** One calendar per span, in document order, each the calendar that
      span's text parses to. */
  lemma OneCalendarPerSpan(s: string)
    requires ParseCalendars(s).Ok?
    ensures |ParseCalendars(s).value| == |Matches(s, BlockPattern("VCALENDAR"))|
    ensures forall i | 0 <= i < |BlockTexts(s, "VCALENDAR")| ::
      Ok(ParseCalendars(s).value[i]) == ParseCalendar(BlockTexts(s, "VCALENDAR")[i])
  {
    BlocksMapped(ParseCalendar, s, "VCALENDAR");
  }

  /** The whole read fails exactly when some span fails to parse, and then
      with the error of the first span that fails: no partial list. */
  lemma AnyFailureFails(s: string)
    ensures ParseCalendars(s).Err? <==>
      exists i | 0 <= i < |BlockTexts(s, "VCALENDAR")| :: ParseCalendar(BlockTexts(s, "VCALENDAR")[i]).Err?
    ensures ParseCalendars(s).Err? ==>
      exists i | 0 <= i < |BlockTexts(s, "VCALENDAR")| ::
        && ParseCalendar(BlockTexts(s, "VCALENDAR")[i]) == Err(ParseCalendars(s).error)
        && forall j | 0 <= j < i :: ParseCalendar(BlockTexts(s, "VCALENDAR")[j]).Ok?
  {
    MapAllErr(ParseCalendar, BlockTexts(s, "VCALENDAR"));
  }

  /** Everything the calendars `cs` read their contents from. */
  ghost function CalendarsFootprint(cs: seq<Calendar>): set<object>
  {
    set c, o | c in cs && o in c.Footprint() :: o
  }

  ghost function CalendarValues(cs: seq<Calendar>): (vs: seq<CalendarValue>)
    reads CalendarsFootprint(cs)
    ensures |vs| == |cs|
  {
    if cs == [] then [] else CalendarValues(cs[..|cs| - 1]) + [cs[|cs| - 1].Value()]
  }

  ghost predicate CalendarsHold(cs: seq<Calendar>, vs: seq<CalendarValue>)
    reads CalendarsFootprint(cs)
  {
    |cs| == |vs| && forall k :: 0 <= k < |cs| ==> cs[k].Value() == vs[k]
  }

  lemma CalendarsHoldSnoc(cs: seq<Calendar>, vs: seq<CalendarValue>, c: Calendar)
    requires CalendarsHold(cs, vs)
    ensures CalendarsHold(cs + [c], vs + [c.Value()])
  {
  }

  lemma {:induction false} CalendarsHoldValues(cs: seq<Calendar>, vs: seq<CalendarValue>)
    requires CalendarsHold(cs, vs)
    ensures CalendarValues(cs) == vs
    decreases |cs|
  {
    if cs != [] {
      CalendarsHoldValues(cs[..|cs| - 1], vs[..|vs| - 1]);
    }
  }

  lemma CalendarsAllocated(cs: seq<Calendar>)
    ensures forall o | o in CalendarsFootprint(cs) :: allocated(o)
  {
  }

  /** `try results.map { try CKCalendar.init(with:) }`. */
  method CalendarsFromTexts(texts: seq<string>) returns (r: Result<seq<Calendar>>)
    ensures r.Err? <==> MapAll(ParseCalendar, texts).Err?
    ensures r.Err? ==> r.error == MapAll(ParseCalendar, texts).error
    ensures r.Ok? ==> CalendarValues(r.value) == MapAll(ParseCalendar, texts).value
  {
    var out: seq<Calendar> := [];
    ghost var vs: seq<CalendarValue> := [];
    for i := 0 to |texts|
      invariant MapAll(ParseCalendar, texts[..i]) == Ok(vs)
      invariant CalendarsHold(out, vs)
    {
      CalendarsAllocated(out);
      var item := Calendar.FromText(texts[i]);
      assert CalendarsHold(out, vs);
      if item.Err? {
        TakeSnoc(texts, i);
        MapStopsAt(ParseCalendar, texts[..i], texts[i], texts[i + 1..], vs);
        return Err(item.error);
      }
      MapStep(ParseCalendar, texts, i, vs, item.value.Value());
      CalendarsHoldSnoc(out, vs, item.value);
      out := out + [item.value];
      vs := vs + [item.value.Value()];
    }
    TakeAll(texts);
    CalendarsHoldValues(out, vs);
    r := Ok(out);
  }

  class Serialization {
    /** The file's text after preprocessing. */
    const contents: string

    /** `init(with:encoding:)` once the file has been read and decoded: the
        preprocessing loops, then the result is kept. */
    constructor (text: string)
      ensures contents == Preprocessed(text)
    {
      var value := Preprocess.Preprocess(text);
      contents := value;
    }

    /** `calendars()`: every VCALENDAR span parsed as a calendar, in order;
        the first span that fails makes the whole call fail. */
    method Calendars() returns (r: Result<seq<Calendar>>)
      ensures r.Err? <==> ParseCalendars(contents).Err?
      ensures r.Err? ==> r.error == ParseCalendars(contents).error
      ensures r.Ok? ==> CalendarValues(r.value) == ParseCalendars(contents).value
    {
      r := CalendarsFromTexts(BlockTexts(contents, "VCALENDAR"));
    }
  }
}
