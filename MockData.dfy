/** The demonstration records written into an empty store (shared/mock-data.ts). */
module MockData {
  import opened Wrappers
  import opened Types
  import opened Seqs

  const Seminars: seq<Seminar> := [
    Seminar("sem1", "Cloudflare Connect 2024", "Cloudflare Inc.",
            At(1728118800000), At(1728320400000), "Grand Ballroom"),
    Seminar("sem2", "Future of Web Development", "Tech Conferences LLC",
            At(1731400200000), At(1731607200000), "Neptune Hall")
  ]

  const Attendees: seq<Attendee> := [
    Attendee("att1", "sem1", "Alice", "Johnson", "101", Pending),
    Attendee("att2", "sem1", "Bob", "Smith", "102", Pending),
    Attendee("att3", "sem1", "Charlie", "Brown", "103", Served),
    Attendee("att4", "sem1", "Diana", "Prince", "201", Pending),
    Attendee("att5", "sem2", "Eve", "Adams", "301", Pending),
    Attendee("att6", "sem2", "Frank", "Castle", "302", Served),
    Attendee("att7", "sem2", "Grace", "Hopper", "305", Pending),
    Attendee("att8", "sem2", "Heidi", "Klum", "404", Pending)
  ]

  /** The seed ids are pairwise distinct, among seminars and among attendees. */
  lemma SeedIdsDistinct()
    ensures Distinct(Map(SeminarKey, Seminars))
    ensures Distinct(Map(AttendeeKey, Attendees))
  {
    SeedAttendeeIds();
    NumberedIds(Attendees);
  }

  lemma SeedAttendeeIds()
    ensures forall i :: 0 <= i < |Attendees| ==> 3 < |Attendees[i].id| && Attendees[i].id[3] as int == '1' as int + i
  {
  }

  /** Attendees whose ids carry their position (1, 2, 3, ...) at index 3 have distinct ids. */
  lemma NumberedIds(xs: seq<Attendee>)
    requires forall i :: 0 <= i < |xs| ==> 3 < |xs[i].id| && xs[i].id[3] as int == '1' as int + i
    ensures Distinct(Map(AttendeeKey, xs))
  {
    NumberedDistinct(Map(AttendeeKey, xs), 3);
  }

  /** Ids numbered 1, 2, 3, ... at a fixed position are pairwise distinct. */
  lemma NumberedDistinct(ids: seq<string>, k: nat)
    requires forall i :: 0 <= i < |ids| ==> k < |ids[i]| && ids[i][k] as int == '1' as int + i
    ensures Distinct(ids)
  {
    forall i, j | 0 <= i < j < |ids| ensures ids[i] != ids[j] {
      assert ids[i][k] != ids[j][k];
    }
  }

  /** Every seed attendee belongs to a seed seminar and passes attendee validation. */
  lemma SeedAttendeesWellFormed()
    ensures forall a :: a in Attendees ==> exists s :: s in Seminars && s.id == a.seminarId
    ensures forall a :: a in Attendees ==>
      ParseAttendee(AttendeeBody(Some(a.firstName), Some(a.lastName), Some(a.roomNumber))).Some?
  {
    forall a | a in Attendees ensures exists s :: s in Seminars && s.id == a.seminarId {
      if a.seminarId == "sem1" { assert Seminars[0] in Seminars; } else { assert Seminars[1] in Seminars; }
    }
  }

  /** Every seed seminar ends no earlier than it starts. */
  lemma SeedSeminarsWellFormed()
    ensures forall s :: s in Seminars ==> s.startDate.At? && s.endDate.At? && s.startDate.instant <= s.endDate.instant
  {
  }

  /** `sem1` owns exactly att1-att4 and `sem2` exactly att5-att8. */
  lemma SeedOwnership()
    ensures Filter(InSeminar("sem1"), Attendees) == Attendees[..4]
    ensures Filter(NotInSeminar("sem1"), Attendees) == Attendees[4..]
    ensures Filter(InSeminar("sem2"), Attendees) == Attendees[4..]
  {
    SeedOwners();
    OwnedInHalves(Attendees);
  }

  /** Eight attendees, the first four in `sem1` and the rest in `sem2`, split at position 4. */
  lemma OwnedInHalves(xs: seq<Attendee>)
    requires |xs| == 8
    requires forall i :: 0 <= i < 4 ==> xs[i].seminarId == "sem1"
    requires forall i :: 4 <= i < 8 ==> xs[i].seminarId == "sem2"
    ensures Filter(InSeminar("sem1"), xs) == xs[..4]
    ensures Filter(NotInSeminar("sem1"), xs) == xs[4..]
    ensures Filter(InSeminar("sem2"), xs) == xs[4..]
  {
    assert forall i :: 0 <= i < |xs| ==> (InSeminar("sem1")(xs[i]) <==> 0 <= i < 4);
    FilterExactly(InSeminar("sem1"), xs, 0, 4);
    assert forall i :: 0 <= i < |xs| ==> (NotInSeminar("sem1")(xs[i]) <==> 4 <= i < 8);
    FilterExactly(NotInSeminar("sem1"), xs, 4, 8);
    assert forall i :: 0 <= i < |xs| ==> (InSeminar("sem2")(xs[i]) <==> 4 <= i < 8);
    FilterExactly(InSeminar("sem2"), xs, 4, 8);
  }

  lemma SeedOwners()
    ensures forall i :: 0 <= i < 4 ==> Attendees[i].seminarId == "sem1"
    ensures forall i :: 4 <= i < 8 ==> Attendees[i].seminarId == "sem2"
  {
  }

  /** Exactly att3 and att6 are served; the other six are pending. */
  lemma SeedStatuses()
    ensures Filter(IsServed, Attendees) == [Attendees[2], Attendees[5]]
    ensures |Filter(IsPending, Attendees)| == 6
  {
    SeedServedList();
    FilterPartition(IsServed, IsPending, Attendees);
  }

  lemma SeedServedList()
    ensures Filter(IsServed, Attendees) == [Attendees[2], Attendees[5]]
  {
    SeedServed();
    ServedAtTwoAndFive(Attendees);
  }

  /** Of eight attendees, those served are exactly the third and the sixth. */
  lemma ServedAtTwoAndFive(xs: seq<Attendee>)
    requires |xs| == 8
    requires forall i :: 0 <= i < 8 ==> (IsServed(xs[i]) <==> i == 2 || i == 5)
    ensures Filter(IsServed, xs) == [xs[2], xs[5]]
  {
    var left, right := xs[..4], xs[4..];
    assert forall i :: 0 <= i < 4 ==> left[i] == xs[i] && right[i] == xs[4 + i];
    FilterSplit(IsServed, xs, 4);
    FilterExactly(IsServed, left, 2, 3);
    FilterExactly(IsServed, right, 1, 2);
  }

  lemma SeedServed()
    ensures forall i :: 0 <= i < 8 ==> (IsServed(Attendees[i]) <==> i == 2 || i == 5)
  {
  }

  lemma FilterSplit<T>(p: T -> bool, xs: seq<T>, k: nat)
    requires k <= |xs|
    ensures Filter(p, xs) == Filter(p, xs[..k]) + Filter(p, xs[k..])
  {
    assert xs == xs[..k] + xs[k..];
    FilterAppend(p, xs[..k], xs[k..]);
  }

  /** A filter that keeps exactly the positions `lo` up to `hi`. */
  lemma {:induction false} FilterExactly<T>(p: T -> bool, xs: seq<T>, lo: nat, hi: nat)
    requires lo <= hi <= |xs|
    requires forall i :: 0 <= i < |xs| ==> (p(xs[i]) <==> lo <= i < hi)
    ensures Filter(p, xs) == xs[lo..hi]
  {
    if hi == 0 {
      FilterNone(p, xs);
    } else {
      var rest := xs[1..];
      assert forall i :: 0 <= i < |rest| ==> rest[i] == xs[i + 1];
      if lo > 0 {
        FilterExactly(p, rest, lo - 1, hi - 1);
        assert rest[lo - 1..hi - 1] == xs[lo..hi];
      } else {
        FilterExactly(p, rest, 0, hi - 1);
        assert [xs[0]] + rest[..hi - 1] == xs[..hi];
      }
    }
  }
}
