/**
 * The shared record shapes and the request validators of the seminar
 * breakfast tracker (shared/types.ts).
 *
 * Dates are whole numbers (milliseconds since the epoch): the ISO 8601 text
 * the records carry is not modelled. A request body field is `None` when it
 * is absent, is not a string, or (for a date) does not coerce to a valid date.
 */
module Types {
  import opened Wrappers

  /** `breakfastStatus` has exactly two values. */
  datatype BreakfastStatus = Pending | Served

  /** A stored seminar date: the empty string of a blank record, or an instant. */
  datatype Date = Blank | At(instant: int)

  datatype Seminar = Seminar(
    id: string,
    name: string,
    organizer: string,
    startDate: Date,
    endDate: Date,
    assignedRoom: string)

  datatype Attendee = Attendee(
    id: string,
    seminarId: string,
    firstName: string,
    lastName: string,
    roomNumber: string,
    breakfastStatus: BreakfastStatus)

  /** A seminar request body before validation. */
  datatype SeminarBody = SeminarBody(
    name: Option<string>,
    organizer: Option<string>,
    startDate: Option<int>,
    endDate: Option<int>,
    assignedRoom: Option<string>)

  /** An attendee request body (or a parsed CSV row) before validation. */
  datatype AttendeeBody = AttendeeBody(
    firstName: Option<string>,
    lastName: Option<string>,
    roomNumber: Option<string>)

  /** What `seminarSchema` yields on success. */
  datatype SeminarInput = SeminarInput(
    name: string,
    organizer: string,
    startDate: int,
    endDate: int,
    assignedRoom: string)

  /** What `attendeeSchema` yields on success: the three named fields and nothing else. */
  datatype AttendeeInput = AttendeeInput(
    firstName: string,
    lastName: string,
    roomNumber: string)

  // ---------------------------------------------------------------------------
  // Validation

  /** The seminar rules: minimum lengths on the texts and an end not before the start. */
  predicate ValidSeminar(x: SeminarInput) {
    |x.name| >= 3 && |x.organizer| >= 2 && |x.assignedRoom| >= 1 && x.startDate <= x.endDate
  }

  /** The attendee rule: every field non-empty. */
  predicate ValidAttendee(x: AttendeeInput) {
    |x.firstName| >= 1 && |x.lastName| >= 1 && |x.roomNumber| >= 1
  }

  /** The body a client sends for a given input. */
  function SeminarBodyOf(x: SeminarInput): SeminarBody {
    SeminarBody(Some(x.name), Some(x.organizer), Some(x.startDate), Some(x.endDate), Some(x.assignedRoom))
  }

  function AttendeeBodyOf(x: AttendeeInput): AttendeeBody {
    AttendeeBody(Some(x.firstName), Some(x.lastName), Some(x.roomNumber))
  }

  /** `z.string().min(n)` on one field. */
  predicate TextAtLeast(f: Option<string>, n: nat) {
    f.Some? && |f.value| >= n
  }

  /** `seminarSchema.safeParse`: field checks, then the end-not-before-start refinement. */
  function ParseSeminar(b: SeminarBody): (r: Option<SeminarInput>)
    ensures r.Some? ==> ValidSeminar(r.value) && SeminarBodyOf(r.value) == b
  {
    if TextAtLeast(b.name, 3) && TextAtLeast(b.organizer, 2) && b.startDate.Some? && b.endDate.Some?
       && TextAtLeast(b.assignedRoom, 1) && b.endDate.value >= b.startDate.value
    then Some(SeminarInput(b.name.value, b.organizer.value, b.startDate.value, b.endDate.value, b.assignedRoom.value))
    else None
  }

  /** `attendeeSchema.safeParse`: three non-empty strings; other keys are dropped. */
  function ParseAttendee(b: AttendeeBody): (r: Option<AttendeeInput>)
    ensures r.Some? ==> ValidAttendee(r.value) && AttendeeBodyOf(r.value) == b
  {
    if TextAtLeast(b.firstName, 1) && TextAtLeast(b.lastName, 1) && TextAtLeast(b.roomNumber, 1)
    then Some(AttendeeInput(b.firstName.value, b.lastName.value, b.roomNumber.value))
    else None
  }

  /** A seminar body is accepted exactly when it is the body of a valid input, and yields that input. */
  lemma ParseSeminarExact(b: SeminarBody, x: SeminarInput)
    ensures ParseSeminar(b) == Some(x) <==> b == SeminarBodyOf(x) && ValidSeminar(x)
  {
  }

  /** An attendee body is accepted exactly when it is the body of a valid input, and yields that input. */
  lemma ParseAttendeeExact(b: AttendeeBody, x: AttendeeInput)
    ensures ParseAttendee(b) == Some(x) <==> b == AttendeeBodyOf(x) && ValidAttendee(x)
  {
  }

  /** Only lengths are checked: a name of three spaces passes, and so does an end equal to the start. */
  lemma WhitespaceNameAccepted()
    ensures ParseSeminar(SeminarBody(Some("   "), Some("Al"), Some(5), Some(5), Some("B"))).Some?
  {
  }

  /** An end date before the start date is rejected whatever the other fields hold. */
  lemma EndBeforeStartRejected(b: SeminarBody)
    requires b.startDate.Some? && b.endDate.Some? && b.endDate.value < b.startDate.value
    ensures ParseSeminar(b) == None
  {
  }

  /** An attendee body is accepted exactly when all three fields are present and non-empty. */
  lemma ParseAttendeeAccepts(b: AttendeeBody)
    ensures ParseAttendee(b).Some? <==>
      (b.firstName.Some? && b.firstName.value != "" && b.lastName.Some? && b.lastName.value != ""
       && b.roomNumber.Some? && b.roomNumber.value != "")
  {
  }

  // ---------------------------------------------------------------------------
  // Record selectors used as `filter`/`map` callbacks on both sides

  function SeminarKey(s: Seminar): string { s.id }

  function AttendeeKey(a: Attendee): string { a.id }

  function IsPending(a: Attendee): bool { a.breakfastStatus == Pending }

  function IsServed(a: Attendee): bool { a.breakfastStatus == Served }

  /** `a => a.seminarId === sid` */
  function InSeminar(sid: string): Attendee -> bool {
    (a: Attendee) => a.seminarId == sid
  }

  /** `a => a.seminarId !== sid` */
  function NotInSeminar(sid: string): Attendee -> bool {
    (a: Attendee) => a.seminarId != sid
  }
}
