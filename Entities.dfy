/**
 * The two stored entity types and the one domain transform on a stored
 * attendee (worker/entities.ts). Each entity type is a configuration record:
 * its key namespace, its index namespace, the blank record and the seed list.
 */
module Entities {
  import opened Types
  import MockData

  datatype EntityConfig<T> = EntityConfig(
    entityName: string,
    indexName: string,
    initialState: T,
    seedData: seq<T>)

  const SeminarEntity: EntityConfig<Seminar> :=
    EntityConfig("seminar", "seminars", Seminar("", "", "", Blank, Blank, ""), MockData.Seminars)

  const AttendeeEntity: EntityConfig<Attendee> :=
    EntityConfig("attendee", "attendees", Attendee("", "", "", "", "", Pending), MockData.Attendees)

  /** The transform `confirmBreakfast` applies through `mutate`: mark the breakfast served. */
  function ConfirmBreakfast(a: Attendee): (r: Attendee)
    ensures r.breakfastStatus == Served
    ensures r.id == a.id && r.seminarId == a.seminarId
    ensures r.firstName == a.firstName && r.lastName == a.lastName && r.roomNumber == a.roomNumber
  {
    a.(breakfastStatus := Served)
  }

  /** Confirming twice is the same as confirming once. */
  lemma ConfirmBreakfastIdempotent(a: Attendee)
    ensures ConfirmBreakfast(ConfirmBreakfast(a)) == ConfirmBreakfast(a)
  {
  }

  /** A confirmed attendee differs from the original in the status alone. */
  lemma ConfirmBreakfastOnlyStatus(a: Attendee)
    ensures ConfirmBreakfast(a) == a <==> a.breakfastStatus == Served
  {
  }

  /** The blank records: a pending attendee with empty texts, a seminar with every field empty. */
  lemma InitialStates()
    ensures AttendeeEntity.initialState.breakfastStatus == Pending
    ensures var s := SeminarEntity.initialState;
      s.id == s.name == s.organizer == s.assignedRoom == "" && s.startDate == s.endDate == Blank
  {
  }

  /** The two entity types use distinct key and index namespaces. */
  lemma DistinctNamespaces()
    ensures SeminarEntity.entityName != AttendeeEntity.entityName
    ensures SeminarEntity.indexName != AttendeeEntity.indexName
    ensures SeminarEntity.entityName == "seminar" && SeminarEntity.indexName == "seminars"
    ensures AttendeeEntity.entityName == "attendee" && AttendeeEntity.indexName == "attendees"
  {
  }
}
