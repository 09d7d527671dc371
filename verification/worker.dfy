/**
 * The API handlers of `src/worker/index.ts` over the two tables they use,
 * `users` and `modules`.
 *
 * Each handler is specified by a pure function from the tables before the
 * request to the response and the tables after it (an `Outcome`), and is
 * implemented by a method of `Database`, a class holding the two tables as
 * maps, whose body follows the handler step by step. The authentication
 * middleware is represented by the `caller` parameter (None when there is no
 * session), the request validator by the body parsers of module `Types`, and
 * the clock by the `now` parameter.
 *
 * Note what the status-update handler does NOT check: the module's current
 * status, and whether the requested status belongs to the caller's reviewer
 * role. The lemmas at the end of this module make that explicit.
 */
module Worker {
  import opened Wrappers
  import opened Json
  import opened Types

  // ---------------------------------------------------------------------------
  // Requests and responses

  /** The error responses of the handlers. */
  datatype ApiError =
    | NotAuthenticated         // no session
    | InvalidBody              // the request validator rejected the JSON body
    | InsufficientPermissions  // the caller's stored role does not allow the action
    | ModuleNotFound
    | InvalidStatus            // a status update to the initial status
    | InternalServerError      // the handler threw

  /** The HTTP status code each error is sent with. */
  function HttpStatus(e: ApiError): (code: nat)
    ensures 400 <= code < 600
    ensures code == 400 <==> e == InvalidBody || e == InvalidStatus
  {
    match e
    case NotAuthenticated => 401
    case InvalidBody => 400
    case InsufficientPermissions => 403
    case ModuleNotFound => 404
    case InvalidStatus => 400
    case InternalServerError => 500
  }

  datatype Response<T> = Ok(value: T) | Fail(error: ApiError)

  /** The identity the authentication service attaches to a request. */
  datatype AuthUser = AuthUser(id: string, email: string, googleName: Option<string>)

  /** The two tables, and the next row id the modules table will assign. */
  datatype Tables = Tables(users: map<string, UserProfile>, modules: map<int, ModuleRow>, nextId: int)

  /** Each row is stored under its own id, and module ids lie below the next one to assign. */
  ghost predicate WellFormed(t: Tables)
  {
    && 1 <= t.nextId
    && (forall k :: k in t.users ==> t.users[k].id == k)
    && (forall i :: i in t.modules ==> t.modules[i].id == i && 1 <= i < t.nextId)
  }

  /** What a handler answers and what it leaves in the tables. */
  datatype Outcome<T> = Outcome(response: Response<T>, after: Tables)

  /** The role stored for the caller, if the caller has a profile. */
  function CallerRole(users: map<string, UserProfile>, caller: AuthUser): (r: Option<Role>)
    ensures r.Some? <==> caller.id in users
    ensures r.Some? ==> r.value == users[caller.id].role
  {
    if caller.id in users then Some(users[caller.id].role) else None
  }

  // ---------------------------------------------------------------------------
  // GET /api/users/me

  /**
   * The profile created the first time an identity is seen: the default role
   * FIREFIGHTER, and the Google display name unless it is missing or empty.
   */
  function NewProfile(a: AuthUser, now: Timestamp): (p: UserProfile)
    ensures p.id == a.id && p.email == a.email && p.role == Firefighter
    ensures p.name.Some? <==> (a.googleName.Some? && a.googleName.value != "")
    ensures p.name.Some? ==> p.name == a.googleName
    ensures p.createdAt == now && p.updatedAt == now
  {
    var name := if a.googleName.Some? && a.googleName.value != "" then a.googleName else None;
    UserProfile(a.id, a.email, name, Firefighter, now, now)
  }

  /** Get-or-create: a known caller gets the stored profile, an unknown one a new profile. */
  function MeOutcome(t: Tables, caller: Option<AuthUser>, now: Timestamp): (o: Outcome<UserProfile>)
    ensures caller.None? ==> o == Outcome(Fail(NotAuthenticated), t)
    ensures caller.Some? ==>
      && o.response.Ok?
      && o.after.modules == t.modules && o.after.nextId == t.nextId
      && o.after.users.Keys == t.users.Keys + {caller.value.id}
      && (forall k :: k in t.users ==> o.after.users[k] == t.users[k])
      && o.after.users[caller.value.id] == o.response.value
      && (caller.value.id !in t.users ==> o.response.value == NewProfile(caller.value, now))
    ensures WellFormed(t) ==> WellFormed(o.after)
  {
    match caller
    case None => Outcome(Fail(NotAuthenticated), t)
    case Some(a) =>
      if a.id in t.users then Outcome(Ok(t.users[a.id]), t)
      else
        var p := NewProfile(a, now);
        Outcome(Ok(p), t.(users := t.users[a.id := p]))
  }

  /** A second request for the same identity changes nothing and answers the same. */
  lemma {:induction false} MeIdempotent(t: Tables, caller: Option<AuthUser>, now1: Timestamp, now2: Timestamp)
    ensures MeOutcome(MeOutcome(t, caller, now1).after, caller, now2) == MeOutcome(t, caller, now1)
  {
    var first := MeOutcome(t, caller, now1);
    if caller.Some? {
      assert caller.value.id in first.after.users;
      assert first.after.users[caller.value.id] == first.response.value;
    }
  }

  // ---------------------------------------------------------------------------
  // PUT /api/users/:id/role

  /**
   * An officer sets the role of an existing user. A target id with no profile
   * updates nothing, and reading the missing row back makes the handler throw.
   */
  function RoleChangeOutcome(t: Tables, caller: Option<AuthUser>, targetId: string, body: Value, now: Timestamp)
    : (o: Outcome<UserProfile>)
    ensures o.after.modules == t.modules && o.after.nextId == t.nextId
    ensures o.response.Fail? ==> o.after == t
    ensures caller.None? ==> o.response == Fail(NotAuthenticated)
    ensures caller.Some? && ParseRoleBody(body).None? ==> o.response == Fail(InvalidBody)
    ensures o.response.Ok? <==>
      (caller.Some? && ParseRoleBody(body).Some?
       && CallerRole(t.users, caller.value) == Some(Officer) && targetId in t.users)
    ensures caller.Some? && ParseRoleBody(body).Some? && CallerRole(t.users, caller.value) != Some(Officer)
      ==> o.response == Fail(InsufficientPermissions)
    ensures (caller.Some? && ParseRoleBody(body).Some? && CallerRole(t.users, caller.value) == Some(Officer)
             && targetId !in t.users) ==> o.response == Fail(InternalServerError)
    ensures o.response.Ok? ==>
      && o.after.users == t.users[targetId := o.response.value]
      && o.response.value.role == ParseRoleBody(body).value
      && o.response.value.updatedAt == now
      && o.response.value.(role := t.users[targetId].role, updatedAt := t.users[targetId].updatedAt)
         == t.users[targetId]
    ensures WellFormed(t) ==> WellFormed(o.after)
  {
    match caller
    case None => Outcome(Fail(NotAuthenticated), t)
    case Some(a) =>
      match ParseRoleBody(body)
      case None => Outcome(Fail(InvalidBody), t)
      case Some(role) =>
        if CallerRole(t.users, a) != Some(Officer) then Outcome(Fail(InsufficientPermissions), t)
        else if targetId !in t.users then Outcome(Fail(InternalServerError), t)
        else
          var updated := t.users[targetId].(role := role, updatedAt := now);
          Outcome(Ok(updated), t.(users := t.users[targetId := updated]))
  }

  // ---------------------------------------------------------------------------
  // POST /api/modules

  /**
   * A DRIVER or FIREFIGHTER with a profile inserts one row holding the
   * validated type and payload, created by the caller, with no attribution.
   * The row's status is the table's default, `initial`.
   */
  function CreateOutcome(t: Tables, initial: Status, caller: Option<AuthUser>, body: Value, now: Timestamp)
    : (o: Outcome<ModuleRow>)
    ensures o.after.users == t.users
    ensures o.response.Fail? ==> o.after == t
    ensures caller.None? ==> o.response == Fail(NotAuthenticated)
    ensures caller.Some? && ParseCreate(body).None? ==> o.response == Fail(InvalidBody)
    ensures o.response.Ok? <==>
      (caller.Some? && ParseCreate(body).Some?
       && CallerRole(t.users, caller.value).Some? && IsCreator(CallerRole(t.users, caller.value).value))
    ensures caller.Some? && ParseCreate(body).Some?
      && (CallerRole(t.users, caller.value).None? || !IsCreator(CallerRole(t.users, caller.value).value))
      ==> o.response == Fail(InsufficientPermissions)
    ensures o.response.Ok? ==>
      && o.response.value.id == t.nextId
      && o.after.nextId == t.nextId + 1
      && o.after.modules == t.modules[t.nextId := o.response.value]
      && o.response.value.createdBy == caller.value.id
      && o.response.value.moduleType == ParseCreate(body).value.moduleType
      && o.response.value.payload == ParseCreate(body).value.payload
      && o.response.value.status == initial
      && (forall f :: AttributedTo(o.response.value, f).None?)
      && o.response.value.createdAt == now && o.response.value.updatedAt == now
    ensures WellFormed(t) ==> WellFormed(o.after)
    ensures WellFormed(t) && o.response.Ok? ==>
      t.nextId !in t.modules && |o.after.modules| == |t.modules| + 1
  {
    match caller
    case None => Outcome(Fail(NotAuthenticated), t)
    case Some(a) =>
      match ParseCreate(body)
      case None => Outcome(Fail(InvalidBody), t)
      case Some(req) =>
        var role := CallerRole(t.users, a);
        if role.None? || !IsCreator(role.value) then Outcome(Fail(InsufficientPermissions), t)
        else
          var m := ModuleRow(t.nextId, req.moduleType, initial, req.payload, a.id,
                             None, None, None, now, now);
          Outcome(Ok(m), t.(modules := t.modules[t.nextId := m], nextId := t.nextId + 1))
  }

  // ---------------------------------------------------------------------------
  // PUT /api/modules/:id/status

  /** The column the handler's switch stamps for a requested status; none for the initial one. */
  function AttributionFor(s: Status): (f: Option<Attribution>)
    ensures f.None? <==> s == AwaitingSergeant
  {
    match s
    case AwaitingSergeant => None
    case ValidatedSergeant => Some(ValidatedBy)
    case ReviewedB3 => Some(ReviewedBy)
    case PublishedOfficers => Some(PublishedBy)
  }

  /** Distinct statuses stamp distinct columns. */
  lemma AttributionForInjective(s1: Status, s2: Status)
    requires AttributionFor(s1).Some? && AttributionFor(s1) == AttributionFor(s2)
    ensures s1 == s2
  {
  }

  /**
   * Any reviewer may set an existing module to any status but the initial
   * one. The status becomes the requested one and the one column matching it
   * is set to the caller; neither the current status nor which reviewer role
   * the caller holds is consulted.
   */
  function StatusUpdateOutcome(t: Tables, caller: Option<AuthUser>, moduleId: int, body: Value, now: Timestamp)
    : (o: Outcome<ModuleRow>)
    ensures o.after.users == t.users && o.after.nextId == t.nextId
    ensures o.response.Fail? ==> o.after == t
    ensures caller.None? ==> o.response == Fail(NotAuthenticated)
    ensures caller.Some? && ParseStatusBody(body).None? ==> o.response == Fail(InvalidBody)
    ensures caller.Some? && ParseStatusBody(body).Some?
      && (CallerRole(t.users, caller.value).None? || !IsReviewer(CallerRole(t.users, caller.value).value))
      ==> o.response == Fail(InsufficientPermissions)
    ensures (caller.Some? && ParseStatusBody(body).Some?
             && CallerRole(t.users, caller.value).Some? && IsReviewer(CallerRole(t.users, caller.value).value)
             && moduleId in t.modules && ParseStatusBody(body).value == AwaitingSergeant)
      ==> o.response == Fail(InvalidStatus)
    ensures o.response.Ok? <==>
      (caller.Some? && ParseStatusBody(body).Some?
       && CallerRole(t.users, caller.value).Some? && IsReviewer(CallerRole(t.users, caller.value).value)
       && moduleId in t.modules && ParseStatusBody(body).value != AwaitingSergeant)
    ensures (caller.Some? && ParseStatusBody(body).Some?
             && CallerRole(t.users, caller.value).Some? && IsReviewer(CallerRole(t.users, caller.value).value)
             && moduleId !in t.modules) ==> o.response == Fail(ModuleNotFound)
    ensures o.response.Ok? ==>
      && o.after.modules == t.modules[moduleId := o.response.value]
      && o.response.value.status == ParseStatusBody(body).value
      && o.response.value.updatedAt == now
      && AttributedTo(o.response.value, AttributionFor(ParseStatusBody(body).value).value) == Some(caller.value.id)
      && (forall g :: g != AttributionFor(ParseStatusBody(body).value).value ==>
            AttributedTo(o.response.value, g) == AttributedTo(t.modules[moduleId], g))
      && o.response.value.id == t.modules[moduleId].id
      && o.response.value.moduleType == t.modules[moduleId].moduleType
      && o.response.value.payload == t.modules[moduleId].payload
      && o.response.value.createdBy == t.modules[moduleId].createdBy
      && o.response.value.createdAt == t.modules[moduleId].createdAt
    ensures WellFormed(t) ==> WellFormed(o.after)
  {
    match caller
    case None => Outcome(Fail(NotAuthenticated), t)
    case Some(a) =>
      match ParseStatusBody(body)
      case None => Outcome(Fail(InvalidBody), t)
      case Some(s) =>
        var role := CallerRole(t.users, a);
        if role.None? || !IsReviewer(role.value) then Outcome(Fail(InsufficientPermissions), t)
        else if moduleId !in t.modules then Outcome(Fail(ModuleNotFound), t)
        else
          match AttributionFor(s)
          case None => Outcome(Fail(InvalidStatus), t)
          case Some(f) =>
            var m := WithAttribution(t.modules[moduleId].(status := s, updatedAt := now), f, a.id);
            Outcome(Ok(m), t.(modules := t.modules[moduleId := m]))
  }

  /** Requesting the initial status of an existing module is refused and writes nothing. */
  lemma InitialStatusRejected(t: Tables, a: AuthUser, moduleId: int, now: Timestamp)
    requires CallerRole(t.users, a).Some? && IsReviewer(CallerRole(t.users, a).value)
    requires moduleId in t.modules
    ensures StatusUpdateOutcome(t, Some(a), moduleId, StatusBody(AwaitingSergeant), now)
      == Outcome(Fail(InvalidStatus), t)
  {
    StatusBodyRoundTrip(AwaitingSergeant);
  }

  /**
   * The module's current status is not consulted: whatever it is, the update
   * is accepted or refused alike, and an accepted update leaves the same tables.
   */
  lemma UpdateIgnoresCurrentStatus(t: Tables, caller: Option<AuthUser>, moduleId: int, body: Value,
                                   now: Timestamp, other: Status)
    requires moduleId in t.modules
    ensures var t2 := t.(modules := t.modules[moduleId := t.modules[moduleId].(status := other)]);
      var o1, o2 := StatusUpdateOutcome(t, caller, moduleId, body, now),
                    StatusUpdateOutcome(t2, caller, moduleId, body, now);
      && o1.response.Ok? == o2.response.Ok?
      && (o1.response.Ok? ==> o1 == o2)
  {
    var t2 := t.(modules := t.modules[moduleId := t.modules[moduleId].(status := other)]);
    var o1, o2 := StatusUpdateOutcome(t, caller, moduleId, body, now),
                  StatusUpdateOutcome(t2, caller, moduleId, body, now);
    if o1.response.Ok? {
      assert o1.response == o2.response;
      assert o1.after.modules == o2.after.modules;
    }
  }

  /**
   * Which of the three reviewer roles the caller holds is not consulted
   * either: a SERGEANT may publish and an OFFICER may validate.
   */
  lemma UpdateIgnoresWhichReviewer(t: Tables, a: AuthUser, moduleId: int, body: Value,
                                   now: Timestamp, other: Role)
    requires a.id in t.users && IsReviewer(t.users[a.id].role) && IsReviewer(other)
    ensures var t2 := t.(users := t.users[a.id := t.users[a.id].(role := other)]);
      var o1, o2 := StatusUpdateOutcome(t, Some(a), moduleId, body, now),
                    StatusUpdateOutcome(t2, Some(a), moduleId, body, now);
      && o1.response == o2.response
      && o1.after.modules == o2.after.modules
  {
  }

  /** An OFFICER publishes a module still awaiting its sergeant: two stages are skipped. */
  lemma ServerAllowsSkip(t: Tables, a: AuthUser, moduleId: int, now: Timestamp)
    requires CallerRole(t.users, a) == Some(Officer)
    requires moduleId in t.modules && t.modules[moduleId].status == AwaitingSergeant
    ensures var o := StatusUpdateOutcome(t, Some(a), moduleId, StatusBody(PublishedOfficers), now);
      && o.response.Ok?
      && o.response.value.status == PublishedOfficers
      && Rank(o.response.value.status) == Rank(t.modules[moduleId].status) + 3
      && o.response.value.validatedBy == t.modules[moduleId].validatedBy
      && o.response.value.reviewedBy == t.modules[moduleId].reviewedBy
  {
    StatusBodyRoundTrip(PublishedOfficers);
    var o := StatusUpdateOutcome(t, Some(a), moduleId, StatusBody(PublishedOfficers), now);
    assert AttributedTo(o.response.value, ValidatedBy) == AttributedTo(t.modules[moduleId], ValidatedBy);
    assert AttributedTo(o.response.value, ReviewedBy) == AttributedTo(t.modules[moduleId], ReviewedBy);
  }

  /** A SERGEANT moves a published module back to VALIDATED_SERGEANT. */
  lemma ServerAllowsBackward(t: Tables, a: AuthUser, moduleId: int, now: Timestamp)
    requires CallerRole(t.users, a) == Some(Sergeant)
    requires moduleId in t.modules && t.modules[moduleId].status == PublishedOfficers
    ensures var o := StatusUpdateOutcome(t, Some(a), moduleId, StatusBody(ValidatedSergeant), now);
      && o.response.Ok?
      && Rank(o.response.value.status) < Rank(t.modules[moduleId].status)
  {
    StatusBodyRoundTrip(ValidatedSergeant);
  }

  /**
   * An attribution column is not written once only: a second validation by
   * another reviewer overwrites the first one's id.
   */
  lemma ServerOverwritesAttribution(t: Tables, a: AuthUser, b: AuthUser, moduleId: int, now1: Timestamp, now2: Timestamp)
    requires CallerRole(t.users, a).Some? && IsReviewer(CallerRole(t.users, a).value)
    requires CallerRole(t.users, b).Some? && IsReviewer(CallerRole(t.users, b).value)
    requires a.id != b.id && moduleId in t.modules
    ensures var first := StatusUpdateOutcome(t, Some(a), moduleId, StatusBody(ValidatedSergeant), now1);
      var second := StatusUpdateOutcome(first.after, Some(b), moduleId, StatusBody(ValidatedSergeant), now2);
      && first.response.Ok? && first.response.value.validatedBy == Some(a.id)
      && second.response.Ok? && second.response.value.validatedBy == Some(b.id)
  {
    StatusBodyRoundTrip(ValidatedSergeant);
    var first := StatusUpdateOutcome(t, Some(a), moduleId, StatusBody(ValidatedSergeant), now1);
    assert AttributedTo(first.response.value, ValidatedBy) == Some(a.id);
    var second := StatusUpdateOutcome(first.after, Some(b), moduleId, StatusBody(ValidatedSergeant), now2);
    assert AttributedTo(second.response.value, ValidatedBy) == Some(b.id);
  }

  // ---------------------------------------------------------------------------
  // GET /api/modules

  /** The number of rows the module list returns at most. */
  const ListLimit: nat := 50

  function Min(a: nat, b: nat): nat
  {
    if a <= b then a else b
  }

  function ListedIds(rows: seq<ModuleRow>): set<int>
  {
    set i | 0 <= i < |rows| :: rows[i].id
  }

  /**
   * `rows` is an answer of `SELECT * FROM modules ORDER BY created_at DESC
   * LIMIT limit`: as many distinct stored rows as the limit allows, newest
   * first, and no row left out is newer than any row listed. Rows with equal
   * timestamps may come in any order.
   */
  ghost predicate IsRecentListing(modules: map<int, ModuleRow>, limit: nat, rows: seq<ModuleRow>)
  {
    && |rows| == Min(limit, |modules|)
    && StoredRows(modules, rows)
    && DistinctIds(rows)
    && NewestFirst(rows)
    && NoneNewer(modules, modules.Keys - ListedIds(rows), rows)
  }

  /** Every listed row is the stored row under its id. */
  ghost predicate StoredRows(modules: map<int, ModuleRow>, rows: seq<ModuleRow>)
  {
    forall i :: 0 <= i < |rows| ==> rows[i].id in modules && modules[rows[i].id] == rows[i]
  }

  /** No row is listed twice. */
  ghost predicate DistinctIds(rows: seq<ModuleRow>)
  {
    forall i, j :: 0 <= i < j < |rows| ==> rows[i].id != rows[j].id
  }

  /** Rows are in order of creation time, newest first. */
  ghost predicate NewestFirst(rows: seq<ModuleRow>)
  {
    forall i, j :: 0 <= i < j < |rows| ==> rows[i].createdAt >= rows[j].createdAt
  }

  /** No stored row among `ids` is newer than a listed row. */
  ghost predicate NoneNewer(modules: map<int, ModuleRow>, ids: set<int>, rows: seq<ModuleRow>)
  {
    forall k, i :: k in ids && k in modules && 0 <= i < |rows| ==> modules[k].createdAt <= rows[i].createdAt
  }

  /** Some member of a non-empty set of ids. */
  ghost function PickId(ids: set<int>): (x: int)
    requires ids != {}
    ensures x in ids
  {
    assert exists y :: y in ids by {
      if forall y :: y !in ids {
        assert false;
      }
    }
    var x :| x in ids; x
  }

  /** A non-empty set of stored ids has a newest member. */
  lemma {:induction false} NewestExists(modules: map<int, ModuleRow>, ids: set<int>)
    requires ids != {} && ids <= modules.Keys
    ensures exists k :: k in ids && forall j :: j in ids ==> modules[j].createdAt <= modules[k].createdAt
    decreases ids
  {
    var x := PickId(ids);
    if ids != {x} {
      NewestExists(modules, ids - {x});
      var k :| k in ids - {x} && forall j :: j in ids - {x} ==> modules[j].createdAt <= modules[k].createdAt;
      if modules[x].createdAt <= modules[k].createdAt {
        assert forall j :: j in ids ==> modules[j].createdAt <= modules[k].createdAt;
      } else {
        assert forall j :: j in ids ==> modules[j].createdAt <= modules[x].createdAt;
      }
    } else {
      assert forall j :: j in ids ==> j == x;
    }
  }

  lemma ListedIdsAppend(rows: seq<ModuleRow>, r: ModuleRow)
    ensures ListedIds(rows + [r]) == ListedIds(rows) + {r.id}
  {
    var rows' := rows + [r];
    assert rows'[|rows|].id == r.id;
    forall x | x in ListedIds(rows) ensures x in ListedIds(rows') {
      var i :| 0 <= i < |rows| && rows[i].id == x;
      assert rows'[i].id == x;
    }
  }

  /**
   * The state of the selection below: `rows` holds the newest rows taken so
   * far, newest first, and `remaining` the ids not taken yet, none of them
   * newer than a row taken.
   */
  ghost predicate Selecting(modules: map<int, ModuleRow>, limit: nat, rows: seq<ModuleRow>, remaining: set<int>)
  {
    && remaining <= modules.Keys
    && ListedIds(rows) == modules.Keys - remaining
    && |rows| + |remaining| == |modules|
    && |rows| <= limit
    && StoredRows(modules, rows)
    && DistinctIds(rows)
    && NewestFirst(rows)
    && NoneNewer(modules, remaining, rows)
  }

  lemma StoredRowsStep(modules: map<int, ModuleRow>, rows: seq<ModuleRow>, k: int)
    requires StoredRows(modules, rows) && k in modules && modules[k].id == k
    ensures StoredRows(modules, rows + [modules[k]])
  {
    var rows' := rows + [modules[k]];
    assert forall i :: 0 <= i < |rows| ==> rows'[i] == rows[i];
  }

  lemma DistinctIdsStep(rows: seq<ModuleRow>, r: ModuleRow)
    requires DistinctIds(rows) && r.id !in ListedIds(rows)
    ensures DistinctIds(rows + [r])
  {
    var rows' := rows + [r];
    forall i, j | 0 <= i < j < |rows'| ensures rows'[i].id != rows'[j].id {
      if j == |rows| {
        assert rows'[i].id == rows[i].id && rows[i].id in ListedIds(rows);
      }
    }
  }

  lemma NewestFirstStep(rows: seq<ModuleRow>, r: ModuleRow)
    requires NewestFirst(rows) && forall i :: 0 <= i < |rows| ==> r.createdAt <= rows[i].createdAt
    ensures NewestFirst(rows + [r])
  {
    var rows' := rows + [r];
    assert forall i :: 0 <= i < |rows| ==> rows'[i] == rows[i];
  }

  lemma NoneNewerStep(modules: map<int, ModuleRow>, remaining: set<int>, rows: seq<ModuleRow>, k: int)
    requires NoneNewer(modules, remaining, rows)
    requires remaining <= modules.Keys && k in remaining && forall j :: j in remaining ==> modules[j].createdAt <= modules[k].createdAt
    ensures NoneNewer(modules, remaining - {k}, rows + [modules[k]])
  {
    var rows' := rows + [modules[k]];
    assert forall i :: 0 <= i < |rows| ==> rows'[i] == rows[i];
  }

  /** Taking the newest remaining row keeps the selection state. */
  lemma SelectionStep(modules: map<int, ModuleRow>, limit: nat, rows: seq<ModuleRow>, remaining: set<int>, k: int)
    requires forall x :: x in modules ==> modules[x].id == x
    requires Selecting(modules, limit, rows, remaining) && |rows| < limit
    requires k in remaining && forall j :: j in remaining ==> modules[j].createdAt <= modules[k].createdAt
    ensures Selecting(modules, limit, rows + [modules[k]], remaining - {k})
  {
    var newest := modules[k];
    ListedIdsAppend(rows, newest);
    StoredRowsStep(modules, rows, k);
    DistinctIdsStep(rows, newest);
    assert forall i :: 0 <= i < |rows| ==> newest.createdAt <= rows[i].createdAt;
    NewestFirstStep(rows, newest);
    NoneNewerStep(modules, remaining, rows, k);
  }

  /** When the selection stops, the rows taken answer the query. */
  lemma SelectionAnswersQuery(modules: map<int, ModuleRow>, limit: nat, rows: seq<ModuleRow>, remaining: set<int>)
    requires Selecting(modules, limit, rows, remaining)
    requires |rows| == limit || remaining == {}
    ensures IsRecentListing(modules, limit, rows)
  {
    assert |rows| == Min(limit, |modules|);
    assert modules.Keys - ListedIds(rows) == remaining;
  }

  /** The database's evaluation of the list query, by repeatedly taking the newest remaining row. */
  method RecentModules(modules: map<int, ModuleRow>, limit: nat) returns (rows: seq<ModuleRow>)
    requires forall k :: k in modules ==> modules[k].id == k
    ensures IsRecentListing(modules, limit, rows)
  {
    var remaining := modules.Keys;
    rows := [];
    while |rows| < limit && remaining != {}
      invariant Selecting(modules, limit, rows, remaining)
      decreases remaining
    {
      NewestExists(modules, remaining);
      var k :| k in remaining && forall j :: j in remaining ==> modules[j].createdAt <= modules[k].createdAt;
      SelectionStep(modules, limit, rows, remaining, k);
      rows := rows + [modules[k]];
      remaining := remaining - {k};
    }
    SelectionAnswersQuery(modules, limit, rows, remaining);
  }

  // ---------------------------------------------------------------------------
  // The database and the handlers that change it

  class Database {
    var users: map<string, UserProfile>
    var modules: map<int, ModuleRow>
    var nextId: int
    /** The default of the modules table's status column (its definition is not part of this model). */
    const initialStatus: Status

    ghost function State(): Tables
      reads this
    {
      Tables(users, modules, nextId)
    }

    ghost predicate Valid()
      reads this
    {
      WellFormed(State())
    }

    constructor (initialStatus: Status)
      ensures Valid() && State() == Tables(map[], map[], 1)
      ensures this.initialStatus == initialStatus
    {
      users := map[];
      modules := map[];
      nextId := 1;
      this.initialStatus := initialStatus;
    }

    /** `GET /api/users/me`. */
    method GetCurrentUser(caller: Option<AuthUser>, now: Timestamp) returns (resp: Response<UserProfile>)
      requires Valid()
      modifies this`users
      ensures Valid()
      ensures Outcome(resp, State()) == MeOutcome(old(State()), caller, now)
    {
      if caller.None? {
        return Fail(NotAuthenticated);
      }
      var authUser := caller.value;
      if authUser.id !in users {
        users := users[authUser.id := NewProfile(authUser, now)];
        resp := Ok(users[authUser.id]);
        return;
      }
      resp := Ok(users[authUser.id]);
    }

    /** `PUT /api/users/:id/role`. */
    method UpdateUserRole(caller: Option<AuthUser>, targetId: string, body: Value, now: Timestamp)
      returns (resp: Response<UserProfile>)
      requires Valid()
      modifies this`users
      ensures Valid()
      ensures Outcome(resp, State()) == RoleChangeOutcome(old(State()), caller, targetId, body, now)
    {
      if caller.None? {
        return Fail(NotAuthenticated);
      }
      var role := ParseRoleBody(body);
      if role.None? {
        return Fail(InvalidBody);
      }
      var authUser := caller.value;
      if authUser.id !in users || users[authUser.id].role != Officer {
        return Fail(InsufficientPermissions);
      }
      if targetId in users {
        users := users[targetId := users[targetId].(role := role.value, updatedAt := now)];
      }
      if targetId !in users {
        return Fail(InternalServerError);
      }
      resp := Ok(users[targetId]);
    }

    /** `POST /api/modules`. */
    method CreateModule(caller: Option<AuthUser>, body: Value, now: Timestamp) returns (resp: Response<ModuleRow>)
      requires Valid()
      modifies this`modules, this`nextId
      ensures Valid()
      ensures Outcome(resp, State()) == CreateOutcome(old(State()), initialStatus, caller, body, now)
    {
      if caller.None? {
        return Fail(NotAuthenticated);
      }
      var req := ParseCreate(body);
      if req.None? {
        return Fail(InvalidBody);
      }
      var authUser := caller.value;
      if authUser.id !in users || !IsCreator(users[authUser.id].role) {
        return Fail(InsufficientPermissions);
      }
      var id := nextId;
      modules := modules[id := ModuleRow(id, req.value.moduleType, initialStatus, req.value.payload,
                                         authUser.id, None, None, None, now, now)];
      nextId := nextId + 1;
      resp := Ok(modules[id]);
    }

    /** `GET /api/modules`. */
    method ListModules(caller: Option<AuthUser>) returns (resp: Response<seq<ModuleRow>>)
      requires Valid()
      ensures caller.None? ==> resp == Fail(NotAuthenticated)
      ensures caller.Some? ==> resp.Ok? && IsRecentListing(modules, ListLimit, resp.value)
    {
      if caller.None? {
        return Fail(NotAuthenticated);
      }
      var rows := RecentModules(modules, ListLimit);
      resp := Ok(rows);
    }

    /** `PUT /api/modules/:id/status`. */
    method UpdateModuleStatus(caller: Option<AuthUser>, moduleId: int, body: Value, now: Timestamp)
      returns (resp: Response<ModuleRow>)
      requires Valid()
      modifies this`modules
      ensures Valid()
      ensures Outcome(resp, State()) == StatusUpdateOutcome(old(State()), caller, moduleId, body, now)
    {
      if caller.None? {
        return Fail(NotAuthenticated);
      }
      var status := ParseStatusBody(body);
      if status.None? {
        return Fail(InvalidBody);
      }
      var authUser := caller.value;
      if authUser.id !in users || !IsReviewer(users[authUser.id].role) {
        return Fail(InsufficientPermissions);
      }
      if moduleId !in modules {
        return Fail(ModuleNotFound);
      }
      var updateField: Attribution;
      match status.value {
        case ValidatedSergeant => updateField := ValidatedBy;
        case ReviewedB3 => updateField := ReviewedBy;
        case PublishedOfficers => updateField := PublishedBy;
        case AwaitingSergeant => return Fail(InvalidStatus);
      }
      var row := modules[moduleId].(status := status.value, updatedAt := now);
      modules := modules[moduleId := WithAttribution(row, updateField, authUser.id)];
      resp := Ok(modules[moduleId]);
    }
  }
}
