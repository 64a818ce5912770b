/**
 * The worker's HTTP handlers (worker/user-routes.ts) over the two entity
 * stores. A handler's response is reduced to its outcome and payload;
 * `crypto.randomUUID()` is replaced by ids the caller supplies, each required
 * to be new to its store.
 */
module Routes {
  import opened Wrappers
  import opened Seqs
  import opened Types
  import opened Entities
  import opened Store
  import MockData

  /** `ok(c, data)`, `bad(c, …)` and `notFound(c, …)`. */
  datatype Response<T> = Ok(data: T) | BadRequest | NotFound

  /** The worker's environment: one store per entity type, each keyed by record id. */
  class Env {
    const seminars: IndexedEntity<Seminar>
    const attendees: IndexedEntity<Attendee>

    ghost predicate Valid()
      reads this, seminars, attendees
    {
      && seminars.Valid() && seminars.key == SeminarKey
      && attendees.Valid() && attendees.key == AttendeeKey
    }

    constructor ()
      ensures Valid() && fresh(seminars) && fresh(attendees)
      ensures seminars.Items() == [] && attendees.Items() == []
    {
      seminars := new IndexedEntity(SeminarKey);
      attendees := new IndexedEntity(AttendeeKey);
    }
  }

  // ---------------------------------------------------------------------------
  // Records built by the handlers

  /** `{ id, ...parsed.data }` with the dates as instants. */
  function NewSeminar(id: string, x: SeminarInput): Seminar {
    Seminar(id, x.name, x.organizer, At(x.startDate), At(x.endDate), x.assignedRoom)
  }

  /** `{ id, seminarId, ...parsed.data, breakfastStatus: 'Pending' }` */
  function NewAttendee(id: string, sid: string, x: AttendeeInput): (r: Attendee)
    ensures r.breakfastStatus == Pending && r.id == id && r.seminarId == sid
    ensures r.firstName == x.firstName && r.lastName == x.lastName && r.roomNumber == x.roomNumber
    ensures ParseAttendee(AttendeeBody(Some(r.firstName), Some(r.lastName), Some(r.roomNumber))) == Some(x) <==> ValidAttendee(x)
  {
    Attendee(id, sid, x.firstName, x.lastName, x.roomNumber, Pending)
  }

  /** `patch(updatedData)` on a seminar: every field but the id is overwritten. */
  function PatchSeminar(x: SeminarInput): Seminar -> Seminar {
    (s: Seminar) => NewSeminar(s.id, x)
  }

  /** `patch(parsed.data)` on an attendee: the three validated fields are overwritten. */
  function PatchAttendee(x: AttendeeInput): Attendee -> Attendee {
    (a: Attendee) => a.(firstName := x.firstName, lastName := x.lastName, roomNumber := x.roomNumber)
  }

  /** An attendee update changes the name and room and nothing else. */
  lemma PatchAttendeeKeeps(x: AttendeeInput, a: Attendee)
    ensures var b := PatchAttendee(x)(a);
      && b.id == a.id && b.seminarId == a.seminarId && b.breakfastStatus == a.breakfastStatus
      && AttendeeBodyOf(x) == AttendeeBody(Some(b.firstName), Some(b.lastName), Some(b.roomNumber))
  {
  }

  /**
   * The cascade's id selection: deleting the ids of a seminar's attendees
   * from a list with distinct ids leaves exactly the attendees of other seminars.
   */
  lemma {:induction false} CascadeSelection(xs: seq<Attendee>, sid: string)
    requires Distinct(Map(AttendeeKey, xs))
    ensures Filter(KeyOutside(AttendeeKey, set k | k in Map(AttendeeKey, Filter(InSeminar(sid), xs))), xs)
         == Filter(NotInSeminar(sid), xs)
  {
    var owned := Filter(InSeminar(sid), xs);
    var doomed := set k | k in Map(AttendeeKey, owned);
    FilterMembers(InSeminar(sid), xs);
    forall x | x in xs ensures KeyOutside(AttendeeKey, doomed)(x) == NotInSeminar(sid)(x) {
      if x.seminarId == sid {
        var j :| 0 <= j < |owned| && owned[j] == x;
        assert Map(AttendeeKey, owned)[j] == x.id;
      } else {
        forall j | 0 <= j < |owned| ensures Map(AttendeeKey, owned)[j] != x.id {
          var y := owned[j];
          assert y in xs && y.seminarId == sid;
          SameKeySame(xs, x, y);
        }
      }
    }
    FilterAgree(KeyOutside(AttendeeKey, doomed), NotInSeminar(sid), xs);
  }

  /** In a list with distinct ids, the id determines the attendee. */
  lemma SameKeySame(xs: seq<Attendee>, x: Attendee, y: Attendee)
    requires Distinct(Map(AttendeeKey, xs))
    requires x in xs && y in xs
    ensures x.id == y.id ==> x == y
  {
    var a :| 0 <= a < |xs| && xs[a] == x;
    var b :| 0 <= b < |xs| && xs[b] == y;
    assert Map(AttendeeKey, xs)[a] == x.id && Map(AttendeeKey, xs)[b] == y.id;
  }

  // ---------------------------------------------------------------------------
  // Seeding

  /** The middleware run before every request: seed each empty store. */
  method EnsureSeeded(env: Env)
    requires env.Valid()
    modifies env.seminars, env.attendees
    ensures env.Valid()
    ensures old(env.seminars.index) == [] ==> env.seminars.Items() == SeminarEntity.seedData
    ensures old(env.seminars.index) != [] ==> env.seminars.records == old(env.seminars.records) && env.seminars.index == old(env.seminars.index)
    ensures old(env.attendees.index) == [] ==> env.attendees.Items() == AttendeeEntity.seedData
    ensures old(env.attendees.index) != [] ==> env.attendees.records == old(env.attendees.records) && env.attendees.index == old(env.attendees.index)
  {
    MockData.SeedIdsDistinct();
    env.seminars.EnsureSeed(SeminarEntity.seedData);
    env.attendees.EnsureSeed(AttendeeEntity.seedData);
  }

  // ---------------------------------------------------------------------------
  // Seminar routes

  /** GET /api/seminars */
  method ListSeminars(env: Env) returns (r: Response<seq<Seminar>>)
    requires env.Valid()
    ensures r == Ok(env.seminars.Items())
  {
    var items := env.seminars.List();
    r := Ok(items);
  }

  /** POST /api/seminars */
  method CreateSeminar(env: Env, body: SeminarBody, freshId: string) returns (r: Response<Seminar>)
    requires env.Valid()
    requires freshId !in env.seminars.records
    modifies env.seminars
    ensures env.Valid()
    ensures ParseSeminar(body).None? ==> r == BadRequest && unchanged(env.seminars)
    ensures ParseSeminar(body).Some? ==>
      && r == Ok(NewSeminar(freshId, ParseSeminar(body).value))
      && env.seminars.records == old(env.seminars.records)[freshId := r.data]
      && env.seminars.Items() == old(env.seminars.Items()) + [r.data]
  {
    var parsed := ParseSeminar(body);
    if parsed.None? {
      return BadRequest;
    }
    var s := NewSeminar(freshId, parsed.value);
    env.seminars.Create(s);
    r := Ok(s);
  }

  /** GET /api/seminars/:id */
  method GetSeminar(env: Env, id: string) returns (r: Response<Seminar>)
    requires env.Valid()
    ensures id in env.seminars.records ==> r == Ok(env.seminars.records[id]) && r.data.id == id
    ensures id !in env.seminars.records ==> r == NotFound
  {
    var present := env.seminars.Exists(id);
    if !present {
      return NotFound;
    }
    var s := env.seminars.GetState(id);
    r := Ok(s);
  }

  /** PUT /api/seminars/:id: validation first, then the existence check, then the patch. */
  method UpdateSeminar(env: Env, id: string, body: SeminarBody) returns (r: Response<Seminar>)
    requires env.Valid()
    modifies env.seminars
    ensures env.Valid()
    ensures ParseSeminar(body).None? ==> r == BadRequest && unchanged(env.seminars)
    ensures ParseSeminar(body).Some? && id !in old(env.seminars.records) ==> r == NotFound && unchanged(env.seminars)
    ensures ParseSeminar(body).Some? && id in old(env.seminars.records) ==>
      && r == Ok(NewSeminar(id, ParseSeminar(body).value))
      && env.seminars.records == old(env.seminars.records)[id := r.data]
      && env.seminars.index == old(env.seminars.index)
  {
    var parsed := ParseSeminar(body);
    if parsed.None? {
      return BadRequest;
    }
    var present := env.seminars.Exists(id);
    if !present {
      return NotFound;
    }
    var s := env.seminars.Mutate(id, PatchSeminar(parsed.value));
    r := Ok(s);
  }

  /** DELETE /api/seminars/:id: delete the seminar, then every attendee that references it. */
  method DeleteSeminar(env: Env, id: string) returns (r: Response<string>)
    requires env.Valid()
    modifies env.seminars, env.attendees
    ensures env.Valid()
    ensures id !in old(env.seminars.records) ==>
      && r == NotFound
      && env.seminars.records == old(env.seminars.records) && env.seminars.index == old(env.seminars.index)
      && unchanged(env.attendees)
    ensures id in old(env.seminars.records) ==>
      && r == Ok(id)
      && env.seminars.records == old(env.seminars.records) - {id}
      && env.seminars.Items() == Filter(KeyOutside(SeminarKey, {id}), old(env.seminars.Items()))
      && env.attendees.Items() == Filter(NotInSeminar(id), old(env.attendees.Items()))
  {
    ghost var oldIndex := env.seminars.index;
    var existed := env.seminars.Delete(id);
    if !existed {
      FilterAll(Outside({id}), oldIndex);
      return NotFound;
    }
    var all := env.attendees.List();
    var doomed := Map(AttendeeKey, Filter(InSeminar(id), all));
    CascadeSelection(all, id);
    env.attendees.DeleteMany(doomed);
    r := Ok(id);
  }

  // ---------------------------------------------------------------------------
  // Attendee routes

  /** GET /api/attendees */
  method ListAttendees(env: Env) returns (r: Response<seq<Attendee>>)
    requires env.Valid()
    ensures r == Ok(env.attendees.Items())
  {
    var items := env.attendees.List();
    r := Ok(items);
  }

  /** GET /api/seminars/:id/attendees: the stored attendees of one seminar, in list order. */
  method ListSeminarAttendees(env: Env, sid: string) returns (r: Response<seq<Attendee>>)
    requires env.Valid()
    ensures r == Ok(Filter(InSeminar(sid), env.attendees.Items()))
  {
    var all := env.attendees.List();
    r := Ok(Filter(InSeminar(sid), all));
  }

  /** POST /api/seminars/:seminarId/attendees (the seminar's existence is not checked). */
  method CreateAttendee(env: Env, sid: string, body: AttendeeBody, freshId: string) returns (r: Response<Attendee>)
    requires env.Valid()
    requires freshId !in env.attendees.records
    modifies env.attendees
    ensures env.Valid()
    ensures ParseAttendee(body).None? ==> r == BadRequest && unchanged(env.attendees)
    ensures ParseAttendee(body).Some? ==>
      && r == Ok(NewAttendee(freshId, sid, ParseAttendee(body).value))
      && env.attendees.records == old(env.attendees.records)[freshId := r.data]
      && env.attendees.Items() == old(env.attendees.Items()) + [r.data]
  {
    var parsed := ParseAttendee(body);
    if parsed.None? {
      return BadRequest;
    }
    var a := NewAttendee(freshId, sid, parsed.value);
    env.attendees.Create(a);
    r := Ok(a);
  }

  /** The body an attendee record would be submitted as. */
  function BodyOfRecord(a: Attendee): AttendeeBody {
    AttendeeBody(Some(a.firstName), Some(a.lastName), Some(a.roomNumber))
  }

  /**
   * The records a bulk request of valid items creates: one per item, in
   * item order, each pending, in the path's seminar, under the supplied id
   * and carrying exactly the item's three fields.
   */
  function Admitted(sid: string, items: seq<AttendeeBody>, ids: seq<string>): (r: seq<Attendee>)
    requires |ids| == |items|
    requires forall i :: 0 <= i < |items| ==> ParseAttendee(items[i]).Some?
    ensures |r| == |items|
    ensures forall i :: 0 <= i < |r| ==>
      r[i].id == ids[i] && r[i].seminarId == sid && r[i].breakfastStatus == Pending && BodyOfRecord(r[i]) == items[i]
  {
    if |items| == 0 then []
    else [NewAttendee(ids[0], sid, ParseAttendee(items[0]).value)] + Admitted(sid, items[1..], ids[1..])
  }

  /** The records built for the bulk route carry the supplied ids, in order. */
  lemma KeysOfNew(created: seq<Attendee>, ids: seq<string>)
    requires |created| == |ids|
    requires forall i :: 0 <= i < |ids| ==> created[i].id == ids[i]
    ensures Map(AttendeeKey, created) == ids
  {
  }

  /**
   * The validation loop of the bulk route: one new pending attendee per item,
   * or nothing at all as soon as one item fails validation.
   */
  method ParseBulk(sid: string, items: seq<AttendeeBody>, ids: seq<string>) returns (r: Option<seq<Attendee>>)
    requires |ids| == |items|
    ensures r.None? <==> exists i :: 0 <= i < |items| && ParseAttendee(items[i]).None?
    ensures r.Some? ==> r.value == Admitted(sid, items, ids)
  {
    var created: seq<Attendee> := [];
    var n := 0;
    while n < |items|
      invariant n <= |items| && |created| == n
      invariant forall i :: 0 <= i < n ==>
        ParseAttendee(items[i]).Some? && created[i] == NewAttendee(ids[i], sid, ParseAttendee(items[i]).value)
    {
      var parsed := ParseAttendee(items[n]);
      if parsed.None? {
        return None;
      }
      created := created + [NewAttendee(ids[n], sid, parsed.value)];
      n := n + 1;
    }
    var spec := Admitted(sid, items, ids);
    forall i | 0 <= i < n ensures created[i] == spec[i] {
      assert BodyOfRecord(spec[i]) == items[i];
    }
    r := Some(created);
  }

  /**
   * POST /api/seminars/:seminarId/attendees/bulk. `body` is `None` when the
   * request body is not an array. All or nothing: on any invalid item nothing
   * is written; otherwise the admitted records are appended and their number
   * reported (zero for an empty array, with no write).
   */
  method BulkCreateAttendees(env: Env, sid: string, body: Option<seq<AttendeeBody>>, ids: seq<string>)
    returns (r: Response<nat>)
    requires env.Valid()
    requires body.Some? ==> |ids| == |body.value|
    requires Distinct(ids)
    requires forall i :: 0 <= i < |ids| ==> ids[i] !in env.attendees.records
    modifies env.attendees
    ensures env.Valid()
    ensures body.None? ==> r == BadRequest && unchanged(env.attendees)
    ensures body.Some? && (exists i :: 0 <= i < |body.value| && ParseAttendee(body.value[i]).None?) ==>
      r == BadRequest && unchanged(env.attendees)
    ensures body.Some? && (forall i :: 0 <= i < |body.value| ==> ParseAttendee(body.value[i]).Some?) ==>
      && r == Ok(|body.value|)
      && env.attendees.Items() == old(env.attendees.Items()) + Admitted(sid, body.value, ids)
  {
    if body.None? {
      return BadRequest;
    }
    var created := ParseBulk(sid, body.value, ids);
    if created.None? {
      return BadRequest;
    }
    var newAttendees := created.value;
    if |newAttendees| > 0 {
      KeysOfNew(newAttendees, ids);
      env.attendees.CreateMany(newAttendees);
    } else {
      assert env.attendees.Items() + newAttendees == env.attendees.Items();
    }
    r := Ok(|newAttendees|);
  }

  /** PUT /api/attendees/:id: validation first, then the existence check, then the patch. */
  method UpdateAttendee(env: Env, id: string, body: AttendeeBody) returns (r: Response<Attendee>)
    requires env.Valid()
    modifies env.attendees
    ensures env.Valid()
    ensures ParseAttendee(body).None? ==> r == BadRequest && unchanged(env.attendees)
    ensures ParseAttendee(body).Some? && id !in old(env.attendees.records) ==> r == NotFound && unchanged(env.attendees)
    ensures ParseAttendee(body).Some? && id in old(env.attendees.records) ==>
      && r == Ok(PatchAttendee(ParseAttendee(body).value)(old(env.attendees.records)[id]))
      && env.attendees.records == old(env.attendees.records)[id := r.data]
      && env.attendees.index == old(env.attendees.index)
  {
    var parsed := ParseAttendee(body);
    if parsed.None? {
      return BadRequest;
    }
    var present := env.attendees.Exists(id);
    if !present {
      return NotFound;
    }
    var a := env.attendees.Mutate(id, PatchAttendee(parsed.value));
    r := Ok(a);
  }

  /** DELETE /api/attendees/:id */
  method DeleteAttendee(env: Env, id: string) returns (r: Response<string>)
    requires env.Valid()
    modifies env.attendees
    ensures env.Valid()
    ensures r == (if id in old(env.attendees.records) then Ok(id) else NotFound)
    ensures env.attendees.records == old(env.attendees.records) - {id}
    ensures env.attendees.Items() == Filter(KeyOutside(AttendeeKey, {id}), old(env.attendees.Items()))
  {
    var existed := env.attendees.Delete(id);
    r := if existed then Ok(id) else NotFound;
  }

  /** POST /api/attendees/:id/confirm-breakfast */
  method ConfirmBreakfastRoute(env: Env, id: string) returns (r: Response<Attendee>)
    requires env.Valid()
    modifies env.attendees
    ensures env.Valid()
    ensures id !in old(env.attendees.records) ==> r == NotFound && unchanged(env.attendees)
    ensures id in old(env.attendees.records) ==>
      && r == Ok(ConfirmBreakfast(old(env.attendees.records)[id]))
      && env.attendees.records == old(env.attendees.records)[id := r.data]
      && env.attendees.Items() == Map(Replacing(AttendeeKey, r.data), old(env.attendees.Items()))
  {
    var present := env.attendees.Exists(id);
    if !present {
      return NotFound;
    }
    var a := env.attendees.Mutate(id, ConfirmBreakfast);
    r := Ok(a);
  }
}
