/** `CKAttendee`: an ATTENDEE record and the values its calendar-user-type,
    participation-status, role and RSVP parameters take (sections 3.2.3,
    3.2.12, 3.2.16 and 3.2.17 of RFC 5545). Each parameter value has a raw
    text, and reading a raw text back is exact and case-sensitive. */
module Attendees {
  import opened Results
  import opened Text
  import opened Attributes
  import opened AttributeLaws
  import opened Registry

  // ---- CUTYPE ----

  datatype CalendarUserType = Individual | Group | Resource | Room | Unknown

  function CalendarUserTypeRaw(t: CalendarUserType): string {
    match t
    case Individual => "INDIVIDUAL"
    case Group => "GROUP"
    case Resource => "RESOURCE"
    case Room => "ROOM"
    case Unknown => "UNKNOWN"
  }

  /** `CUTYPE(rawValue:)`: the case whose raw text is `s`, if any. */
  function CalendarUserTypeFromRaw(s: string): (r: Option<CalendarUserType>)
    ensures forall t :: r == Some(t) <==> CalendarUserTypeRaw(t) == s
  {
    if s == "INDIVIDUAL" then Some(Individual)
    else if s == "GROUP" then Some(Group)
    else if s == "RESOURCE" then Some(Resource)
    else if s == "ROOM" then Some(Room)
    else if s == "UNKNOWN" then Some(Unknown)
    else None
  }

  // ---- PARTSTAT ----

  datatype ParticipationStatus = NeedsAction | Accepted | Declined | Tentative | Delegated

  function ParticipationStatusRaw(p: ParticipationStatus): string {
    match p
    case NeedsAction => "NEEDS-ACTION"
    case Accepted => "ACCEPTED"
    case Declined => "DECLINED"
    case Tentative => "TENTATIVE"
    case Delegated => "DELEGATED"
  }

  /** `PARTSTAT(rawValue:)`: the hyphenated `NEEDS-ACTION` is read, the
      case's own spelling `NEEDSACTION` is not. */
  function ParticipationStatusFromRaw(s: string): (r: Option<ParticipationStatus>)
    ensures forall p :: r == Some(p) <==> ParticipationStatusRaw(p) == s
  {
    if s == "NEEDS-ACTION" then Some(NeedsAction)
    else if s == "ACCEPTED" then Some(Accepted)
    else if s == "DECLINED" then Some(Declined)
    else if s == "TENTATIVE" then Some(Tentative)
    else if s == "DELEGATED" then Some(Delegated)
    else None
  }

  // ---- ROLE ----

  datatype Role = Chair | RequiredParticipant | OptionalParticipant | NonParticipant

  function RoleRaw(r: Role): string {
    match r
    case Chair => "CHAIR"
    case RequiredParticipant => "REQ-PARTICIPANT"
    case OptionalParticipant => "OPT-PARTICIPANT"
    case NonParticipant => "NON-PARTICIPANT"
  }

  /** `ROLE(rawValue:)`. */
  function RoleFromRaw(s: string): (r: Option<Role>)
    ensures forall role :: r == Some(role) <==> RoleRaw(role) == s
  {
    if s == "CHAIR" then Some(Chair)
    else if s == "REQ-PARTICIPANT" then Some(RequiredParticipant)
    else if s == "OPT-PARTICIPANT" then Some(OptionalParticipant)
    else if s == "NON-PARTICIPANT" then Some(NonParticipant)
    else None
  }

  // ---- RSVP ----

  datatype Rsvp = True | False

  function RsvpRaw(v: Rsvp): string {
    match v
    case True => "TRUE"
    case False => "FALSE"
  }

  /** `RSVP(rawValue:)`: only the upper-case spellings are read. */
  function RsvpFromRaw(s: string): (r: Option<Rsvp>)
    ensures forall v :: r == Some(v) <==> RsvpRaw(v) == s
  {
    if s == "TRUE" then Some(True)
    else if s == "FALSE" then Some(False)
    else None
  }

  /** The raw texts are exactly the ones the standard lists, and the
      enumerations hold no other case: every case's raw text is one of them
      and each of them is read back. */
  lemma RawValuesAreTheListedOnes()
    ensures forall t :: CalendarUserTypeRaw(t) in ["INDIVIDUAL", "GROUP", "RESOURCE", "ROOM", "UNKNOWN"]
    ensures forall s | s in ["INDIVIDUAL", "GROUP", "RESOURCE", "ROOM", "UNKNOWN"] :: CalendarUserTypeFromRaw(s).Some?
    ensures forall p :: ParticipationStatusRaw(p) in ["NEEDS-ACTION", "ACCEPTED", "DECLINED", "TENTATIVE", "DELEGATED"]
    ensures forall s | s in ["NEEDS-ACTION", "ACCEPTED", "DECLINED", "TENTATIVE", "DELEGATED"] :: ParticipationStatusFromRaw(s).Some?
    ensures forall r :: RoleRaw(r) in ["CHAIR", "REQ-PARTICIPANT", "OPT-PARTICIPANT", "NON-PARTICIPANT"]
    ensures forall s | s in ["CHAIR", "REQ-PARTICIPANT", "OPT-PARTICIPANT", "NON-PARTICIPANT"] :: RoleFromRaw(s).Some?
    ensures forall v :: RsvpRaw(v) in ["TRUE", "FALSE"]
    ensures forall s | s in ["TRUE", "FALSE"] :: RsvpFromRaw(s).Some?
    ensures ParticipationStatusFromRaw("NEEDSACTION").None?
  {
  }

  // ---- CKAttendee ----

  /** ATTENDEE is a repeatable VEVENT key, so an event's attendees
      accumulate. */
  lemma EventAttendeeRepeatable()
    ensures RepeatableName(EventKeys, "ATTENDEE")
  {
    assert forall j | 0 <= j < 21 :: EventKeys[j].raw != "ATTENDEE";
    FromRawAt(EventKeys, 21, "ATTENDEE");
  }

  /** ATTENDEE is a repeatable VFREEBUSY key as well. */
  lemma FreeBusyAttendeeRepeatable()
    ensures RepeatableName(FreeBusyKeys, "ATTENDEE")
  {
    assert forall j | 0 <= j < 7 :: FreeBusyKeys[j].raw != "ATTENDEE";
    FromRawAt(FreeBusyKeys, 7, "ATTENDEE");
  }

  /** `CKAttendee.init(value:attributes:)`: the given value and parameters
      under the name ATTENDEE, which every table that knows it treats as
      repeatable. */
  function Attendee(value: string, attrs: map<string, string>): (a: Attribute)
    ensures a.name == "ATTENDEE"
    ensures a.value == value && a.attrs == attrs
    ensures RepeatableName(EventKeys, a.name) && RepeatableName(TodoKeys, a.name) && RepeatableName(FreeBusyKeys, a.name)
  {
    EventAttendeeRepeatable();
    AttendeeSpellings();
    FreeBusyAttendeeRepeatable();
    Attribute("ATTENDEE", value, attrs)
  }

  /** An attendee without parameters whose value holds no `;` and no CRLF
      reads back from its own text as the same attendee. */
  lemma AttendeeRoundTrip(value: string)
    requires ';' !in value && !Contains(value, CRLF)
    ensures Parse(CRLF + Serialized(Attendee(value, map[]))) == Ok(Attendee(value, map[]))
  {
    BareRoundTrip("ATTENDEE", value);
  }
}
