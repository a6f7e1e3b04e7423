/** The `AttributeKey` enums of the components: for each component kind an
    ordered list of raw values (the `allCases` order, which is the order in
    which the parsers visit the keys) with the `mutable` flag of
    `CKRegularable`, which tells a repeatable key from a singleton one. */
module Registry {
  import opened Results
  import opened Text

  /** One enum case: its raw value and whether it may occur more than once. */
  datatype KeySpec = KeySpec(raw: string, repeatable: bool)

  /** `CKCalendar.AttributeKey`: every key is a singleton. */
  const CalendarKeys: seq<KeySpec> :=
    [KeySpec("PRODID", false), KeySpec("VERSION", false), KeySpec("CALSCALE", false), KeySpec("METHOD", false)]

  /** The ten repeatable keys shared by VEVENT and VTODO. */
  const SharedRepeatable: seq<KeySpec> :=
    [KeySpec("ATTACH", true), KeySpec("ATTENDEE", true), KeySpec("CATEGORIES", true), KeySpec("COMMENT", true), KeySpec("CONTACT", true),
     KeySpec("EXDATE", true), KeySpec("RSTATUS", true), KeySpec("RELATED", true), KeySpec("RESOURCES", true), KeySpec("RDATE", true)]

  /** The singleton keys of `CKEvent.AttributeKey` (LASTMOD has the raw
      value `LAST-MOD`). */
  const EventSingletons: seq<KeySpec> :=
    [KeySpec("DTSTAMP", false), KeySpec("UID", false), KeySpec("DTSTART", false), KeySpec("RRULE", false), KeySpec("DTEND", false),
     KeySpec("DURATION", false), KeySpec("CLASS", false), KeySpec("CREATED", false), KeySpec("DESCRIPTION", false), KeySpec("GEO", false),
     KeySpec("LAST-MOD", false), KeySpec("LOCATION", false), KeySpec("PRIORITY", false), KeySpec("SEQ", false), KeySpec("STATUS", false),
     KeySpec("SUMMARY", false), KeySpec("TRANSP", false), KeySpec("URL", false), KeySpec("RECURID", false), KeySpec("ORGANIZER", false)]

  const EventKeys: seq<KeySpec> := EventSingletons + SharedRepeatable

  /** The singleton keys of `CKTodo.AttributeKey`. */
  const TodoSingletons: seq<KeySpec> :=
    [KeySpec("DTSTAMP", false), KeySpec("UID", false), KeySpec("CLASS", false), KeySpec("COMPLETED", false), KeySpec("CREATED", false),
     KeySpec("DESCRIPTION", false), KeySpec("DTSTART", false), KeySpec("GEO", false), KeySpec("LAST-MOD", false), KeySpec("LOCATION", false),
     KeySpec("ORGANIZER", false), KeySpec("PERCENT", false), KeySpec("PRIORITY", false), KeySpec("RECURID", false), KeySpec("SEQ", false),
     KeySpec("STATUS", false), KeySpec("SUMMARY", false), KeySpec("URL", false), KeySpec("RRULE", false), KeySpec("DUE", false),
     KeySpec("DURATION", false)]

  const TodoKeys: seq<KeySpec> := TodoSingletons + SharedRepeatable

  /** `CKFreeBusy.AttributeKey`. */
  const FreeBusyKeys: seq<KeySpec> :=
    [KeySpec("DTSTAMP", false), KeySpec("UID", false), KeySpec("CONTACT", false), KeySpec("DTSTART", false), KeySpec("DTEND", false),
     KeySpec("ORGANIZER", false), KeySpec("URL", false),
     KeySpec("ATTENDEE", true), KeySpec("COMMENT", true), KeySpec("FREEBUSY", true), KeySpec("RSTATUS", true)]

  /** `CKTimezone.AttributeKey`: every key is a singleton. */
  const TimezoneKeys: seq<KeySpec> := [KeySpec("TZID", false), KeySpec("LAST-MOD", false), KeySpec("TZURL", false)]

  /** `CKStandard.AttributeKey`. */
  const StandardKeys: seq<KeySpec> :=
    [KeySpec("DTSTART", false), KeySpec("TZOFFSETTO", false), KeySpec("TZOFFSETFROM", false), KeySpec("RRULE", false),
     KeySpec("COMMENT", true), KeySpec("RDATE", true), KeySpec("TZNAME", true)]

  /** `AttributeKey(rawValue:)`: the case whose raw value is exactly `name`;
      the comparison is case-sensitive. */
  function FromRaw(table: seq<KeySpec>, name: string): (r: Option<KeySpec>)
    ensures r.Some? ==> r.value in table && r.value.raw == name
    ensures r.None? ==> forall k | k in table :: k.raw != name
  {
    if table == [] then None
    else if table[0].raw == name then Some(table[0])
    else FromRaw(table[1..], name)
  }

  const ExtensionPrefixes: seq<string> := ["X-", "IANA-"]

  /** The cardinality rule of the name-based `set` and `add`: the name is
      repeatable when it is the raw value of a repeatable key, or when its
      upper-cased form starts with `X-` or `IANA-`. */
  predicate RepeatableName(table: seq<KeySpec>, name: string) {
    (FromRaw(table, name).Some? && FromRaw(table, name).value.repeatable)
    || HasPrefixAny(Upper(name), ExtensionPrefixes)
  }

  predicate AllSingleton(table: seq<KeySpec>) {
    forall j | 0 <= j < |table| :: !table[j].repeatable
  }

  predicate AllRepeatable(table: seq<KeySpec>) {
    forall j | 0 <= j < |table| :: table[j].repeatable
  }

  /** The repeatable keys of a table, in table order. */
  function RepeatableKeys(table: seq<KeySpec>): (r: seq<KeySpec>)
    ensures |r| <= |table|
    ensures forall k | k in r :: k in table && k.repeatable
    ensures forall k | k in table && k.repeatable :: k in r
  {
    if table == [] then []
    else if table[0].repeatable then [table[0]] + RepeatableKeys(table[1..])
    else RepeatableKeys(table[1..])
  }

  lemma {:induction false} RepeatableKeysAppend(a: seq<KeySpec>, b: seq<KeySpec>)
    ensures RepeatableKeys(a + b) == RepeatableKeys(a) + RepeatableKeys(b)
  {
    if a != [] {
      assert (a + b)[0] == a[0];
      assert (a + b)[1..] == a[1..] + b;
      RepeatableKeysAppend(a[1..], b);
    } else {
      assert a + b == b;
    }
  }

  lemma {:induction false} RepeatableKeysOfSingletons(table: seq<KeySpec>)
    requires AllSingleton(table)
    ensures RepeatableKeys(table) == []
  {
    if table != [] {
      assert AllSingleton(table[1..]) by {
        assert forall j | 0 <= j < |table| - 1 :: table[1..][j] == table[j + 1];
      }
      RepeatableKeysOfSingletons(table[1..]);
    }
  }

  lemma {:induction false} RepeatableKeysOfRepeatables(table: seq<KeySpec>)
    requires AllRepeatable(table)
    ensures RepeatableKeys(table) == table
  {
    if table != [] {
      assert AllRepeatable(table[1..]) by {
        assert forall j | 0 <= j < |table| - 1 :: table[1..][j] == table[j + 1];
      }
      RepeatableKeysOfRepeatables(table[1..]);
    }
  }

  /** A name that is no raw value of the table and has no extension prefix
      is treated as a singleton. */
  lemma UnknownNameIsSingleton(table: seq<KeySpec>, name: string)
    requires forall k | k in table :: k.raw != name
    requires !HasPrefix(Upper(name), "X-") && !HasPrefix(Upper(name), "IANA-")
    ensures !RepeatableName(table, name)
  {
    assert forall p | p in ExtensionPrefixes :: p == "X-" || p == "IANA-";
  }

  /** Raw values are written in capitals: none starts with a lower-case
      letter. */
  predicate CapitalRaws(table: seq<KeySpec>) {
    forall j | 0 <= j < |table| :: |table[j].raw| > 0 && !IsLower(table[j].raw[0])
  }

  /** A name that starts with a lower-case letter is no raw value. */
  lemma {:induction false} LowercaseIsNoRaw(table: seq<KeySpec>, name: string)
    requires CapitalRaws(table) && |name| > 0 && IsLower(name[0])
    ensures FromRaw(table, name).None?
  {
    if table != [] {
      assert forall j | 0 <= j < |table| - 1 :: table[1..][j] == table[j + 1];
      LowercaseIsNoRaw(table[1..], name);
    }
  }

  /** The raw-value lookup is case-sensitive: a name that starts with a
      lower-case letter is repeatable only through an extension prefix,
      even when its upper-case spelling is a repeatable key. */
  lemma LowercaseNameIsSingleton(table: seq<KeySpec>, name: string)
    requires CapitalRaws(table) && |name| > 0 && IsLower(name[0])
    ensures RepeatableName(table, name) <==> HasPrefixAny(Upper(name), ExtensionPrefixes)
  {
    LowercaseIsNoRaw(table, name);
  }

  /** The lookup finds the first case with the given raw value. */
  lemma {:induction false} FromRawAt(table: seq<KeySpec>, i: nat, name: string)
    requires i < |table| && table[i].raw == name
    requires forall j | 0 <= j < i :: table[j].raw != name
    ensures FromRaw(table, name) == Some(table[i])
  {
    if i > 0 {
      assert forall j | 0 <= j < i - 1 :: table[1..][j] == table[j + 1];
      FromRawAt(table[1..], i - 1, name);
    }
  }

  /** A name whose upper-cased form starts with a letter other than X and
      I has no extension prefix. */
  lemma NoExtensionPrefix(name: string)
    requires |name| > 0 && UpperChar(name[0]) != 'X' && UpperChar(name[0]) != 'I'
    ensures !HasPrefixAny(Upper(name), ExtensionPrefixes)
  {
    var u := Upper(name);
    assert u[0] == UpperChar(name[0]);
    assert |u| >= 2 ==> u[..2][0] == u[0];
    assert |u| >= 5 ==> u[..5][0] == u[0];
    assert forall p | p in ExtensionPrefixes :: p == "X-" || p == "IANA-";
  }

  lemma TodoRawsAreCapital()
    ensures CapitalRaws(TodoKeys)
  {
  }

  /** The upper-case ATTENDEE is a repeatable VTODO key, while the
      lower-case `attendee` is treated as a singleton. */
  lemma AttendeeSpellings()
    ensures RepeatableName(TodoKeys, "ATTENDEE")
    ensures !RepeatableName(TodoKeys, "attendee")
  {
    assert TodoKeys[22] == KeySpec("ATTENDEE", true);
    assert forall j | 0 <= j < 22 :: TodoKeys[j].raw != "ATTENDEE";
    FromRawAt(TodoKeys, 22, "ATTENDEE");
    TodoRawsAreCapital();
    LowercaseNameIsSingleton(TodoKeys, "attendee");
    NoExtensionPrefix("attendee");
  }

  /** An extension name is repeatable in every table, in any case, even in
      the timezone table whose keys are all singletons. */
  lemma ExtensionNameIsRepeatable(table: seq<KeySpec>, name: string)
    requires HasPrefix(Upper(name), "X-") || HasPrefix(Upper(name), "IANA-")
    ensures RepeatableName(table, name)
  {
    assert ExtensionPrefixes[0] == "X-" && ExtensionPrefixes[1] == "IANA-";
  }

  lemma TimezoneNames()
    ensures AllSingleton(TimezoneKeys) && AllSingleton(CalendarKeys)
    ensures RepeatableName(TimezoneKeys, "X-FOO") && RepeatableName(TimezoneKeys, "x-foo")
  {
    assert Upper("X-FOO")[..2] == "X-";
    assert Upper("x-foo")[..2] == "X-";
    ExtensionNameIsRepeatable(TimezoneKeys, "X-FOO");
    ExtensionNameIsRepeatable(TimezoneKeys, "x-foo");
  }

  /** VEVENT and VTODO have the same ten repeatable keys, in the same
      order. */
  lemma EventAndTodoTables()
    ensures RepeatableKeys(EventKeys) == SharedRepeatable
    ensures RepeatableKeys(TodoKeys) == SharedRepeatable
  {
    TableKinds();
    RepeatableKeysAppend(EventSingletons, SharedRepeatable);
    RepeatableKeysAppend(TodoSingletons, SharedRepeatable);
    RepeatableKeysOfSingletons(EventSingletons);
    RepeatableKeysOfSingletons(TodoSingletons);
    RepeatableKeysOfRepeatables(SharedRepeatable);
  }

  lemma TableKinds()
    ensures AllSingleton(EventSingletons) && AllSingleton(TodoSingletons)
    ensures AllRepeatable(SharedRepeatable)
  {
  }
}
