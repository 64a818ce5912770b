/**
 * The breakfast dashboard's list logic (src/pages/HomePage.tsx): the seminar
 * filter, the room-number search, the pending/served split, the export order
 * and file name, and the cache update after a confirmation.
 */
module HomePage {
  import opened Wrappers
  import opened Seqs
  import opened Types
  import opened Store
  import opened Entities

  /** The selector value that stands for every seminar. */
  const AllSeminars := "all"

  // ---------------------------------------------------------------------------
  // Substring search

  /** `t` occurs in `s` starting at position `i`. */
  predicate OccursAt(s: string, t: string, i: int) {
    0 <= i && i + |t| <= |s| && s[i..i + |t|] == t
  }

  /** `s.includes(t)` */
  function Includes(s: string, t: string): (r: bool)
    ensures r <==> exists i :: OccursAt(s, t, i)
    decreases |s|
  {
    if |t| <= |s| && s[..|t|] == t then
      assert OccursAt(s, t, 0);
      true
    else if |s| <= |t| then
      assert forall i :: !OccursAt(s, t, i);
      false
    else
      var r := Includes(s[1..], t);
      assert r <==> exists i :: OccursAt(s, t, i) by {
        if r {
          var j :| OccursAt(s[1..], t, j);
          OccursShift(s, t, j + 1);
        } else {
          forall i ensures !OccursAt(s, t, i) {
            if i >= 1 {
              OccursShift(s, t, i);
            }
          }
        }
      }
      r
  }

  /** An occurrence past the first position is an occurrence in the tail. */
  lemma OccursShift(s: string, t: string, i: int)
    requires |s| > 0 && i >= 1
    ensures OccursAt(s, t, i) <==> OccursAt(s[1..], t, i - 1)
  {
    if i + |t| <= |s| {
      assert s[i..i + |t|] == s[1..][i - 1..i - 1 + |t|];
    }
  }

  /** The example from the search box: "1" is found in rooms 101, 102, 103 and 201 but not 302. */
  lemma IncludesExamples()
    ensures Includes("101", "1") && Includes("102", "1") && Includes("103", "1") && Includes("201", "1")
    ensures !Includes("302", "1")
  {
    assert forall i :: !OccursAt("302", "1", i) by {
      assert "302"[0] != '1' && "302"[1] != '1' && "302"[2] != '1';
    }
  }

  // ---------------------------------------------------------------------------
  // The memoised lists

  /** `filteredAttendeesBySeminar` */
  function FilterBySeminar(attendees: seq<Attendee>, selected: string): seq<Attendee> {
    if selected == AllSeminars then attendees else Filter(InSeminar(selected), attendees)
  }

  /** The search predicate: a pending attendee whose room number contains the term. */
  function MatchesSearch(term: string): Attendee -> bool {
    (a: Attendee) => Includes(a.roomNumber, term) && a.breakfastStatus == Pending
  }

  function RoomContains(term: string): Attendee -> bool {
    (a: Attendee) => Includes(a.roomNumber, term)
  }

  /** `searchedAttendees`: nothing for an empty term. */
  function SearchAttendees(filtered: seq<Attendee>, term: string): seq<Attendee> {
    if term == "" then [] else Filter(MatchesSearch(term), filtered)
  }

  /** `pendingAttendees` */
  function PendingAttendees(filtered: seq<Attendee>): seq<Attendee> {
    Filter(IsPending, filtered)
  }

  /** `servedAttendees` */
  function ServedAttendees(filtered: seq<Attendee>): seq<Attendee> {
    Filter(IsServed, filtered)
  }

  /** `dataToExport`: the served list, then the pending list. */
  function ExportData(filtered: seq<Attendee>): seq<Attendee> {
    ServedAttendees(filtered) + PendingAttendees(filtered)
  }

  /** "all" shows everything; any other selection shows exactly that seminar's attendees, in order. */
  lemma SeminarFilterSpec(attendees: seq<Attendee>, selected: string)
    ensures selected == AllSeminars ==> FilterBySeminar(attendees, selected) == attendees
    ensures selected != AllSeminars ==> forall a ::
      a in FilterBySeminar(attendees, selected) <==> a in attendees && a.seminarId == selected
    ensures SubsequenceOf(FilterBySeminar(attendees, selected), attendees)
  {
    FilterMembers(InSeminar(selected), attendees);
    FilterIsSubsequence(InSeminar(selected), attendees);
    if selected == AllSeminars {
      SubsequenceOfSelf(attendees);
    }
  }

  lemma {:induction false} SubsequenceOfSelf<T>(xs: seq<T>)
    ensures SubsequenceOf(xs, xs)
  {
    if |xs| > 0 { SubsequenceOfSelf(xs[1..]); }
  }

  /**
   * A search finds exactly the pending attendees whose room number contains
   * the term; its result is the pending list narrowed by room number, so a
   * subsequence of the pending list.
   */
  lemma SearchSpec(filtered: seq<Attendee>, term: string)
    ensures term == "" ==> SearchAttendees(filtered, term) == []
    ensures term != "" ==> forall a :: a in SearchAttendees(filtered, term) <==>
      a in filtered && a.breakfastStatus == Pending && Includes(a.roomNumber, term)
    ensures term != "" ==> SearchAttendees(filtered, term) == Filter(RoomContains(term), PendingAttendees(filtered))
    ensures SubsequenceOf(SearchAttendees(filtered, term), PendingAttendees(filtered))
  {
    if term != "" {
      FilterMembers(MatchesSearch(term), filtered);
      FilterFilter(RoomContains(term), IsPending, MatchesSearch(term), filtered);
      FilterIsSubsequence(RoomContains(term), PendingAttendees(filtered));
    }
  }

  /**
   * Because the status is two-valued, the pending and served lists split the
   * filtered list: disjoint, with lengths adding up, and the export list is a
   * permutation of the filtered list with every served attendee first.
   */
  lemma PartitionSpec(filtered: seq<Attendee>)
    ensures forall a :: !(a in PendingAttendees(filtered) && a in ServedAttendees(filtered))
    ensures |PendingAttendees(filtered)| + |ServedAttendees(filtered)| == |filtered|
    ensures multiset(ExportData(filtered)) == multiset(filtered)
    ensures forall i :: 0 <= i < |ExportData(filtered)| ==>
      (ExportData(filtered)[i].breakfastStatus == Served <==> i < |ServedAttendees(filtered)|)
  {
    FilterMembers(IsPending, filtered);
    FilterMembers(IsServed, filtered);
    FilterPartition(IsServed, IsPending, filtered);
    var s: seq<Attendee>, p: seq<Attendee> := ServedAttendees(filtered), PendingAttendees(filtered);
    forall i | 0 <= i < |s + p| ensures (s + p)[i].breakfastStatus == Served <==> i < |s| {
      if i < |s| { assert s[i] in s; } else { assert (s + p)[i] == p[i - |s|] && p[i - |s|] in p; }
    }
  }

  // ---------------------------------------------------------------------------
  // Export file name

  /** `seminars.find(s => s.id === id)` */
  function FindSeminar(seminars: seq<Seminar>, id: string): (r: Option<Seminar>)
    ensures r.Some? <==> exists s :: s in seminars && s.id == id
    ensures r.Some? ==> r.value.id == id
    ensures r.Some? ==> exists i :: (0 <= i < |seminars| && seminars[i] == r.value
      && forall j :: 0 <= j < i ==> seminars[j].id != id)
  {
    if |seminars| == 0 then None
    else if seminars[0].id == id then Some(seminars[0])
    else
      var r := FindSeminar(seminars[1..], id);
      assert forall s :: s in seminars[1..] ==> s in seminars;
      assert forall s :: s in seminars && s != seminars[0] ==> s in seminars[1..];
      if r.Some? then
        var i :| 0 <= i < |seminars[1..]| && seminars[1..][i] == r.value
          && forall j :: 0 <= j < i ==> seminars[1..][j].id != id;
        assert seminars[i + 1] == r.value;
        r
      else r
  }

  /** The report title: "All Seminars", the selected seminar's name, or "Seminar" when none (or an empty name) is found. */
  function SeminarName(seminars: seq<Seminar>, selected: string): string {
    if selected == AllSeminars then "All Seminars"
    else match FindSeminar(seminars, selected)
      case Some(s) => if s.name != "" then s.name else "Seminar"
      case None => "Seminar"
  }

  /** `toLowerCase` on one character (ASCII letters only). */
  function LowerChar(c: char): char {
    if 'A' <= c <= 'Z' then (c as int + 32) as char else c
  }

  /** `replace(/ /g, '-')` on one character. */
  function DashForSpace(c: char): char {
    if c == ' ' then '-' else c
  }

  /** `seminarName.toLowerCase().replace(/ /g, '-')` */
  function Slug(name: string): string {
    Map(DashForSpace, Map(LowerChar, name))
  }

  /** The CSV report's base file name. */
  function ExportFileName(seminars: seq<Seminar>, selected: string): string {
    "breakfast-report-" + Slug(SeminarName(seminars, selected))
  }

  /** The slug keeps the length, has no spaces and no capitals, and changes nothing else. */
  lemma SlugSpec(name: string)
    ensures |Slug(name)| == |name|
    ensures forall i :: 0 <= i < |name| ==> Slug(name)[i] != ' ' && !('A' <= Slug(name)[i] <= 'Z')
    ensures forall i :: 0 <= i < |name| && name[i] != ' ' && !('A' <= name[i] <= 'Z') ==> Slug(name)[i] == name[i]
    ensures Slug(Slug(name)) == Slug(name)
  {
    var s := Slug(name);
    assert forall i :: 0 <= i < |name| ==> s[i] == DashForSpace(LowerChar(name[i]));
    var t := Slug(s);
    assert forall i :: 0 <= i < |s| ==> t[i] == DashForSpace(LowerChar(s[i]));
  }

  /**
   * The file name when every seminar is selected: the slug of "All Seminars",
   * which is "all-seminars".
   */
  lemma ExportFileNameAll(seminars: seq<Seminar>)
    ensures SeminarName(seminars, AllSeminars) == "All Seminars"
    ensures ExportFileName(seminars, AllSeminars) == "breakfast-report-" + Slug("All Seminars")
    ensures Slug("All Seminars") == "all-seminars"
  {
    SlugOf("All Seminars", "all-seminars");
  }

  /** The file name for a selection no seminar carries. */
  lemma ExportFileNameUnknown(seminars: seq<Seminar>, id: string)
    requires id != AllSeminars && forall s :: s in seminars ==> s.id != id
    ensures ExportFileName(seminars, id) == "breakfast-report-seminar"
  {
    assert SeminarName(seminars, id) == "Seminar";
    FallbackFileName(seminars, id);
  }

  /** A found seminar whose name is empty falls back to "Seminar", as an unknown id does. */
  lemma ExportFileNameEmptyName(seminars: seq<Seminar>, id: string, s: Seminar)
    requires id != AllSeminars && s.name == ""
    requires FindSeminar(seminars, id) == Some(s)
    ensures s in seminars && s.id == id
    ensures ExportFileName(seminars, id) == "breakfast-report-seminar"
  {
    assert SeminarName(seminars, id) == "Seminar";
    FallbackFileName(seminars, id);
  }

  /** The fallback title "Seminar" gives the file name "breakfast-report-seminar". */
  lemma FallbackFileName(seminars: seq<Seminar>, id: string)
    requires SeminarName(seminars, id) == "Seminar"
    ensures ExportFileName(seminars, id) == "breakfast-report-seminar"
  {
    SlugOf("Seminar", "seminar");
  }

  /** The file name for a found seminar with a non-empty name is built from that name. */
  lemma ExportFileNameFound(seminars: seq<Seminar>, id: string, s: Seminar)
    requires id != AllSeminars && s.name != ""
    requires FindSeminar(seminars, id) == Some(s)
    ensures s in seminars && s.id == id
    ensures ExportFileName(seminars, id) == "breakfast-report-" + Slug(s.name)
  {
  }

  /** Checks a slug character by character. */
  lemma SlugOf(name: string, slug: string)
    requires |name| == |slug|
    requires forall i :: 0 <= i < |name| ==> DashForSpace(LowerChar(name[i])) == slug[i]
    ensures Slug(name) == slug
  {
  }

  // ---------------------------------------------------------------------------
  // Cache update after a confirmation

  /** The `setQueryData` updater: replace the entry with the confirmed attendee's id. */
  function PatchCache(cache: Option<seq<Attendee>>, updated: Attendee): seq<Attendee> {
    match cache
    case None => []
    case Some(xs) => Map(Replacing(AttendeeKey, updated), xs)
  }

  /**
   * The patched cache keeps the length and order of the old one and replaces
   * only entries with the updated id; an absent cache becomes empty.
   */
  lemma PatchCacheSpec(cache: Option<seq<Attendee>>, updated: Attendee)
    ensures cache.None? ==> PatchCache(cache, updated) == []
    ensures cache.Some? ==> |PatchCache(cache, updated)| == |cache.value|
    ensures cache.Some? ==> forall i :: 0 <= i < |cache.value| ==>
      PatchCache(cache, updated)[i] == if cache.value[i].id == updated.id then updated else cache.value[i]
  {
    if cache.Some? {
      var r := PatchCache(cache, updated);
      forall i | 0 <= i < |cache.value|
        ensures r[i] == if cache.value[i].id == updated.id then updated else cache.value[i]
      {
        assert r[i] == Replacing(AttendeeKey, updated)(cache.value[i]);
        assert AttendeeKey(cache.value[i]) == cache.value[i].id && AttendeeKey(updated) == updated.id;
      }
    }
  }

  /**
   * When the cache holds the server's list, patching it with the record the
   * confirm route returns gives the server's list after the confirmation.
   */
  lemma {:induction false} CacheMatchesServer(records: map<string, Attendee>, index: seq<string>, id: string)
    requires forall k :: k in index ==> k in records
    requires Keyed(AttendeeKey, records)
    requires id in records
    ensures forall k :: k in index ==> k in records[id := ConfirmBreakfast(records[id])]
    ensures PatchCache(Some(Lookup(records, index)), ConfirmBreakfast(records[id]))
         == Lookup(records[id := ConfirmBreakfast(records[id])], index)
  {
    var u := ConfirmBreakfast(records[id]);
    var before, after := Lookup(records, index), Lookup(records[id := u], index);
    var patched := PatchCache(Some(before), u);
    forall i | 0 <= i < |index| ensures patched[i] == after[i] {
      assert before[i].id == index[i];
    }
  }
}
