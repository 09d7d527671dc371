# Rotinas GB — a verified model of the module workflow

Rotinas GB is a small web application for a fire brigade unit. Drivers and
firefighters submit daily records, called *modules*: fuel logs, vehicle
checklists and shift hand-over notes. Sergeants, the B3 office and officers
then take each module through a four-stage approval chain:
AWAITING_SERGEANT → VALIDATED_SERGEANT → REVIEWED_B3 → PUBLISHED_OFFICERS.
Each step records who acted in one attribution column (`validated_by`,
`reviewed_by` or `published_by`).

This Dafny project models these parts of the application:

- **The shared data model** (`types.dfy`, `json.dfy`). This covers the role,
  module-type and status enumerations and the three payload schemas. It also
  covers the two request schemas and the stored user and module records.
  Every schema has two sides: a typed datatype with a validity predicate, and
  a parser over raw JSON that mirrors the zod schema. An object schema ignores
  unknown keys, `.optional()` accepts a missing key but not `null`, `min(1)`
  means non-empty, and a union takes the first schema that accepts. Each
  parser is tied to its typed side by its contract and by a round-trip lemma.
- **The API handlers** (`worker.dfy`). Each handler is a pure function from
  the tables before a request to the response and the tables after it.
  `Database` is a class whose two map fields are the two tables. It has one
  method per handler. Each method for a handler that writes or creates a
  profile is proved equal to that handler's function. The module list has no
  such function: it is a loop that repeatedly takes the newest remaining row,
  specified by the predicate `IsRecentListing` and proved to answer
  `ORDER BY created_at DESC LIMIT 50`.
- **The review page's gates** (`validation.dfy`). These are the client's
  functions that decide who may open the page, which module shows an action
  button, which status the button requests, and the captions shown.
- **The workflow** (`workflow.dfy`). An independent table of the three
  approval stages, with lemmas relating the client's gate and the server's
  gate to it.
- **Session-cookie extraction in the logout handler** (`session_cookie.dfy`),
  both as written and corrected (see Findings).

The server and the client enforce different rules, and the model keeps them
apart. The review page offers each reviewer role exactly one step: the next
status in the chain. The status-update handler checks only that the caller
holds some reviewer role. It does not look at the module's current status, it
does not check that the requested status belongs to the caller's role, and
its write is not conditional on the status it read. A design in which the
server enforces the forward order, with conflict detection on a concurrent
write, is therefore not what the code does. The model follows the code. The
lemmas `Worker.ServerAllowsSkip`, `Worker.ServerAllowsBackward`,
`Worker.UpdateIgnoresCurrentStatus`, `Worker.UpdateIgnoresWhichReviewer`,
`Worker.ServerOverwritesAttribution` and
`Workflow.ServerGateWiderThanClientGate` state the difference.

Modelling choices:

- The authentication middleware is represented by the `caller` parameter:
  `None` means there is no session.
- The clock is the `now` parameter, because SQL `datetime('now')` cannot be
  modelled as a value.
- The module table's row ids come from a counter starting at 1.
- The default status of a new row is the constructor parameter
  `initialStatus`, because the table definition is not part of this model.

## Model

| member | source | states |
|---|---|---|
| Json.StrField | src/shared/types.ts:36-39 | `z.string()` on a key accepts exactly a present string value and returns it |
| Json.NumField | src/shared/types.ts:34-35 | `z.number()` on a key accepts exactly a present number and returns it |
| Json.BoolField | src/shared/types.ts:46-53 | `z.boolean()` on a key accepts exactly a present boolean and returns it |
| Json.OptionalStrField | src/shared/types.ts:54 | `.optional()` string: a missing key is accepted as absent, a string as present, anything else (null included) is rejected |
| Types.ParseRole | src/shared/types.ts:4-10 | a string is accepted exactly when it is one of the five role names, and maps to the role so named |
| Types.ParseModuleType | src/shared/types.ts:14-20 | accepts exactly the five module-type names, mapping each to its type |
| Types.ParseStatus | src/shared/types.ts:24-29 | accepts exactly the four status names, mapping each to its status |
| Types.NamesRoundTrip | src/shared/types.ts:4-29 | every enumeration name parses back to the value it names |
| Types.Rank | src/shared/types.ts:24-29 | the position of a status in the declared approval order is below 4 |
| Types.StatusAt | src/shared/types.ts:24-29 | there is a status at exactly positions 0 to 3, and it has that rank |
| Types.RankIsBijection | src/shared/types.ts:24-29 | the four statuses form one strict chain: rank is one-to-one and StatusAt inverts it |
| Types.Successor | src/shared/types.ts:24-29 | every status except PUBLISHED_OFFICERS has a next one, exactly one rank higher |
| Types.CreatorsAndReviewersPartitionRoles | src/worker/index.ts:193 | every role is exactly one of creator (DRIVER, FIREFIGHTER) and reviewer |
| Types.ParseFuel | src/shared/types.ts:33-40 | the fuel schema accepts an object exactly when some valid fuel payload matches its six fields (km, litros ≥ 0; driver, vehicle, station non-empty), and then returns it |
| Types.FuelRoundTrip | src/shared/types.ts:33-40 | a valid fuel payload, sent as JSON, is accepted and read back unchanged |
| Types.ParseChecklist | src/shared/types.ts:44-56 | the checklist schema accepts exactly the objects some valid checklist matches (non-empty vehicle, eight booleans, optional notes) |
| Types.ChecklistJsonFlagsA | src/shared/types.ts:46-49 | the first four flags of a sent checklist read back as sent |
| Types.ChecklistJsonFlagsB | src/shared/types.ts:50-53 | the last four flags of a sent checklist read back as sent |
| Types.ChecklistJsonTexts | src/shared/types.ts:45-55 | the vehicle, the date and the optional notes of a sent checklist read back as sent, a missing note staying missing |
| Types.ChecklistRoundTrip | src/shared/types.ts:44-56 | a valid checklist, sent as JSON, is accepted and read back unchanged |
| Types.ParsePassAlong | src/shared/types.ts:60-69 | the hand-over schema accepts exactly the objects some valid hand-over matches (two shifts and two responsible persons non-empty) |
| Types.PassAlongRoundTrip | src/shared/types.ts:60-69 | a valid hand-over, sent as JSON, is accepted and read back unchanged |
| Types.ParsePayload | src/shared/types.ts:101 | the payload union accepts exactly what one of the three schemas accepts, trying fuel, then checklist, then hand-over, so a later kind is chosen only when every earlier one rejects |
| Types.PayloadRoundTrip | src/shared/types.ts:101 | each valid payload kind is read back as the same kind and value |
| Types.UnionPrefersFuel | src/shared/types.ts:101 | an object that satisfies the fuel schema is read as fuel whatever else it carries |
| Types.ParseCreate | src/shared/types.ts:99-102 | a create body is accepted exactly when its type is a known name and one of the three schemas accepts its payload, extra keys ignored; the accepted payload is the one the union chooses |
| Types.CreateRoundTrip | src/shared/types.ts:99-102 | any valid payload is accepted under any of the five types and read back unchanged |
| Types.FuelTypeAcceptsChecklistPayload | src/shared/types.ts:99-102 | the type does not select the schema: a FUEL request carrying a checklist passes validation |
| Types.ParseStatusBody | src/shared/types.ts:105-107 | a status body is accepted exactly when its `status` key holds one of the four names, the initial one included |
| Types.StatusBodyRoundTrip | src/shared/types.ts:105-107 | every status, sent as a body, is accepted as itself |
| Types.ParseRoleBody | src/worker/index.ts:143 | the role-change body is a bare JSON string naming a role, and nothing else is accepted |
| Types.RoleBodyRoundTrip | src/worker/index.ts:143 | every role, sent as a body, is accepted as itself |
| Types.WithAttribution | src/worker/index.ts:273-292 | setting one attribution column sets it to the actor and leaves the other two columns and every other field of the row unchanged |
| Worker.HttpStatus | src/worker/index.ts:243-303 | every error is answered with a 4xx or 5xx code; 400 is used exactly for an invalid body and for the initial status |
| Worker.CallerRole | src/worker/index.ts:151-155 | the caller has a role exactly when a profile is stored under its id, and it is that profile's role |
| Worker.NewProfile | src/worker/index.ts:118-126 | a first-seen identity gets role FIREFIGHTER and its Google name unless that is missing or empty |
| Worker.MeOutcome | src/worker/index.ts:103-140 | no session gives 401 and no change; otherwise the caller's stored profile is returned, or a new one is stored and returned, and nothing else changes |
| Worker.MeIdempotent | src/worker/index.ts:103-140 | a second request for the same identity changes nothing and answers the same |
| Worker.RoleChangeOutcome | src/worker/index.ts:143-178 | only an OFFICER with a profile may set the role of an existing user. No session gives 401, then an invalid body 400, then a caller who is not an OFFICER 403, then an unknown target 500, and a refusal changes nothing. On success only the role and the update time of the target change |
| Worker.CreateOutcome | src/worker/index.ts:181-218 | only a DRIVER or FIREFIGHTER with a profile creates a module. No session gives 401, then an invalid body 400, then a caller without a profile or with a reviewer role 403, and a refusal changes nothing. The new row takes the next id, the caller as creator, the validated type and payload, the default status and no attribution. Exactly one row is added and the tables stay well-formed |
| Worker.AttributionFor | src/worker/index.ts:273-286 | every status except the initial one selects an attribution column |
| Worker.AttributionForInjective | src/worker/index.ts:273-286 | distinct statuses select distinct columns |
| Worker.StatusUpdateOutcome | src/worker/index.ts:243-303 | the update succeeds exactly for a reviewer with a profile, an existing module and a status other than the initial one. The new row has the requested status, the update time, and the caller in the matching column. Other columns and the module data are kept. No session gives 401, then an invalid body 400, then a caller without a profile or with a creator role 403, then an unknown module 404, then the initial status 400, and a refusal changes nothing |
| Worker.InitialStatusRejected | src/worker/index.ts:284-285 | requesting AWAITING_SERGEANT for an existing module gives 400 and writes nothing |
| Worker.UpdateIgnoresCurrentStatus | src/worker/index.ts:264-292 | the module's current status does not affect whether an update is accepted or what it writes |
| Worker.UpdateIgnoresWhichReviewer | src/worker/index.ts:255-257 | which reviewer role the caller holds does not affect the outcome |
| Worker.ServerAllowsSkip | src/worker/index.ts:255-292 | an OFFICER can publish a module still awaiting its sergeant, three ranks up, with no validation or review recorded |
| Worker.ServerAllowsBackward | src/worker/index.ts:255-292 | a SERGEANT can move a published module back to a lower rank |
| Worker.ServerOverwritesAttribution | src/worker/index.ts:288-292 | a second validation by another reviewer overwrites the first one's id |
| Worker.PickId | src/worker/index.ts:229-233 | a non-empty set of ids has a member |
| Worker.NewestExists | src/worker/index.ts:229-233 | among a non-empty set of stored ids there is one whose row is at least as new as every other |
| Worker.ListedIdsAppend | src/worker/index.ts:229-233 | appending a row adds exactly its id to the listed ids |
| Worker.StoredRowsStep | src/worker/index.ts:229-233 | appending a stored row keeps every listed row a stored row |
| Worker.DistinctIdsStep | src/worker/index.ts:229-233 | appending a row whose id is not yet listed keeps the ids distinct |
| Worker.NewestFirstStep | src/worker/index.ts:229-233 | appending a row no newer than the listed ones keeps newest-first order |
| Worker.NoneNewerStep | src/worker/index.ts:229-233 | removing the newest remaining id keeps every remaining row no newer than every listed row |
| Worker.SelectionStep | src/worker/index.ts:229-233 | taking the newest remaining row preserves the selection invariant |
| Worker.SelectionAnswersQuery | src/worker/index.ts:229-233 | when the selection stops, the rows taken answer the query |
| Worker.RecentModules | src/worker/index.ts:229-233 | returns min(limit, #rows) distinct stored rows, newest first, with no omitted row newer than a listed one |
| Worker.Database.constructor | src/worker/index.ts:20 | the database starts with empty tables, next id 1 and the given default status |
| Worker.Database.GetCurrentUser | src/worker/index.ts:103-140 | the new tables and the response are those of MeOutcome, and the tables stay well-formed |
| Worker.Database.UpdateUserRole | src/worker/index.ts:143-178 | the new tables and the response are those of RoleChangeOutcome |
| Worker.Database.CreateModule | src/worker/index.ts:181-218 | the new tables and the response are those of CreateOutcome with the table's default status |
| Worker.Database.ListModules | src/worker/index.ts:221-240 | no session gives 401; otherwise the answer is a newest-first listing of at most 50 stored modules |
| Worker.Database.UpdateModuleStatus | src/worker/index.ts:243-303 | the new tables and the response are those of StatusUpdateOutcome |
| Validation.PageFor | src/react-app/pages/ValidationPage.tsx:92-100 | the review page opens exactly for the three reviewer roles |
| Validation.CanValidate | src/react-app/pages/ValidationPage.tsx:158-169 | the action is offered only to a reviewer, never on a published module, and only on the status at the role's own stage |
| Validation.RoleStage | src/react-app/pages/ValidationPage.tsx:158-169 | a role has a stage below 3 exactly when it is a reviewer |
| Validation.NextStatus | src/react-app/pages/ValidationPage.tsx:171-182 | a non-reviewer gets the current status back. A reviewer requests the status one past its stage, never the initial one. Wherever the action is offered, this is the successor of the module's status |
| Validation.ActionLabel | src/react-app/pages/ValidationPage.tsx:184-195 | the caption is "Visualizar" exactly for non-reviewers |
| Validation.ActionLabelsDistinct | src/react-app/pages/ValidationPage.tsx:184-195 | distinct reviewer roles see distinct captions |
| Validation.StatusLabel | src/react-app/pages/ValidationPage.tsx:143-156 | a string is shown unchanged exactly when it is not one of the four status names |
| Validation.StatusLabelsDistinct | src/react-app/pages/ValidationPage.tsx:143-156 | distinct statuses are shown with distinct captions |
| Validation.ReviewAction | src/react-app/pages/ValidationPage.tsx:419-422 | the button appears exactly when `canValidate` holds, and its click requests the successor of the module's status |
| Workflow.StagesFollowStatusOrder | src/react-app/pages/ValidationPage.tsx:158-182 | stage i consumes the status of rank i and produces its successor. The column it stamps is the one the server assigns to that successor. Each stage feeds the next |
| Workflow.StageOfRole | src/react-app/pages/ValidationPage.tsx:158-169 | each reviewer role owns exactly one stage and creators own none |
| Workflow.CanValidateFollowsStages | src/react-app/pages/ValidationPage.tsx:158-169 | `canValidate` holds exactly for a stage's reviewer on the status that stage consumes |
| Workflow.NextStatusFollowsStages | src/react-app/pages/ValidationPage.tsx:171-182 | the status a reviewer requests is the one its stage produces |
| Workflow.OneActorPerStatus | src/react-app/pages/ValidationPage.tsx:158-169 | at most one role can act on a status, and nobody acts on a published module |
| Workflow.ServerAcceptsClientAction | src/react-app/pages/ValidationPage.tsx:419-422 | every request the page's button makes is accepted by the server. The module moves to the successor of its status and the caller is stamped in the stage's column |
| Workflow.ClientRequestsPassServerGate | src/worker/index.ts:255-286 | every request the page can make passes the server's role and status checks |
| Workflow.ServerGateWiderThanClientGate | src/worker/index.ts:255-292 | an OFFICER may publish a module awaiting its sergeant, which the page never offers |
| Workflow.FullApproval | src/worker/index.ts:243-303 | a sergeant, B3 and an officer following the page take a fresh module to PUBLISHED_OFFICERS. Each column then names the reviewer of its stage |
| SessionCookie.Split | src/worker/index.ts:76-78 | `split` returns at least one piece, none containing the separator. There are two or more exactly when the string contains it, and joining the pieces gives the string back |
| SessionCookie.SplitAfterPiece | src/worker/index.ts:76-78 | a separator-free prefix followed by the separator becomes the first piece |
| SessionCookie.SplitWithoutSeparator | src/worker/index.ts:76-78 | a string without the separator is one piece |
| SessionCookie.SplitJoin | src/worker/index.ts:76-78 | splitting undoes joining separator-free pieces |
| SessionCookie.HeaderPieces | src/worker/index.ts:76 | a header has one piece per cookie |
| SessionCookie.CookieHeaderGrammar | src/worker/index.ts:76 | the modelled header is the pairs joined by "; " (section 4.2.1 of RFC 6265) |
| SessionCookie.PrefixThenRest | src/worker/index.ts:77 | a string starting with a prefix is the prefix followed by the rest |
| SessionCookie.FirstMatch | src/worker/index.ts:77 | `find` returns the first piece that starts with the prefix, or none when no piece does |
| SessionCookie.TokenAsWritten | src/worker/index.ts:76-78 | the as-written token never contains '=' and needs a header |
| SessionCookie.TrimLeadingSpaces | src/worker/index.ts:76-78 | removing leading spaces leaves a suffix that does not start with a space, after nothing but spaces |
| SessionCookie.TrimEach | src/worker/index.ts:76-78 | every piece is trimmed, in order |
| SessionCookie.SessionToken | src/worker/index.ts:76-78 | the corrected token needs a header, and comes from a piece that reads name=token once trimmed |
| SessionCookie.Pairs | src/worker/index.ts:76-78 | one name=value pair per cookie, in order |
| SessionCookie.FirstValue | src/worker/index.ts:76-78 | the value returned belongs to a cookie with that name; none means no cookie has it |
| SessionCookie.PairMatches | src/worker/index.ts:77 | a pair starts with name= exactly when it is the cookie of that name, and its value follows |
| SessionCookie.FirstMatchFindsFirstCookie | src/worker/index.ts:77 | over the pairs, the first match is the first cookie with the name |
| SessionCookie.SessionTokenFindsFirstCookie | src/worker/index.ts:76-78 | for any well-formed header, the corrected reading returns the value of the first cookie with the session name, wherever it stands |
| SessionCookie.TokenAsWrittenSeesOnlyFirstCookie | src/worker/index.ts:76-78 | the as-written reading finds the session cookie only when it is first, and keeps its value only up to the first '=' |
| SessionCookie.SessionToDelete | src/worker/index.ts:76-85 | logout as written asks to delete a session exactly when the token read as written is a non-empty string, and then that token |
| SessionCookie.IntendedSessionToDelete | src/worker/index.ts:76-85 | the same logout over the corrected reading: a session is deleted exactly when the corrected token is a non-empty string |
| SessionCookie.LogoutDeletesOnlyFirstCookie | src/worker/index.ts:76-85 | for a well-formed header, logout as written deletes a session only when the session cookie comes first, and then only the value up to its first '='; the corrected logout deletes the first session cookie's value wherever it stands |
| SessionCookie.LaterCookieHeader | src/worker/index.ts:76 | the header for cookies a=1 and tok=xyz is "a=1; tok=xyz" |
| SessionCookie.LaterCookieMissedAsWritten | src/worker/index.ts:76-78 | on "a=1; tok=xyz" the as-written reading finds no token and the corrected one finds "xyz" |
| SessionCookie.PaddedValueSplit | src/worker/index.ts:78 | splitting "ab==" on '=' gives "ab" first |
| SessionCookie.PaddedValueCutAsWritten | src/worker/index.ts:76-78 | on "tok=ab==" the as-written reading gives "ab" and the corrected one "ab==" |
| SessionCookie.LaterCookieSessionSurvivesLogout | src/worker/index.ts:76-85 | on "a=1; tok=xyz" logout as written deletes no session, and the corrected logout deletes "xyz" |
| SessionCookie.PaddedValueLogout | src/worker/index.ts:76-85 | on "tok=ab==" logout as written asks to delete "ab", and the corrected logout "ab==" |

## Left out

- OAuth sign-in (`/api/oauth/google/redirect_url`, `/api/sessions`) and the cookie attributes set there are outside this model. They only relay calls to an external users service.
- The logout response and the clearing of its cookie are outside this model. The users service's `deleteSession` is a foreign call, so only its argument is modelled: `SessionCookie.SessionToDelete` as written, `SessionCookie.IntendedSessionToDelete` as corrected.
- How the authentication middleware resolves a session is left out. It is represented by the `caller` parameter.
- The name of the session cookie is a constant of the external users-service package. It is a parameter `name`.
- CORS, the static HTML page served for every other path, and the React routing are left out. They carry no logic of the workflow.
- SQL execution is left out. The tables are maps, `datetime('now')` is the `now` parameter, and `last_row_id` is a counter starting at 1.
- The status column's default is the constructor parameter `initialStatus`, because the table definition is not part of this model.
- A URL module id is a string bound into SQL. The model uses integer ids, and any id with no row gives 404.
- Database failures and the resulting 500 responses are left out, except for the role change of an unknown user. There, reading back the missing row makes the handler throw (modelled as `InternalServerError`).
- `UserSchema.parse` on stored rows is not modelled: the `.email()` check, and a failure on a malformed stored row. Stored profiles are taken as well-formed.
- JSON text is left out: bodies are already-parsed JSON values, and a malformed text is not modelled. Stored payloads are the validated value, not its `JSON.stringify` text.
- Numbers are unbounded reals, not IEEE doubles.
- Concurrent requests are left out. Each handler is modelled as one atomic step, although the source's read and write are separate statements with no transaction.
- Rows with equal `created_at` may be listed in any order, as SQLite leaves their order unspecified.
- From the review page, `fetchModules` and `updateStatus` (React state, HTTP calls and alerts) are left out. So are the icons, `getModuleIcon`, `getModuleLabel`, `getStatusIcon`, the payload detail rendering and the button's disabled state while a request is pending. These are presentation only.
- SessionCookie.SessionToken: trims spaces only, where `String.prototype.trim` would remove every kind of whitespace, because a user agent separates cookies with a single space.
- The following hold on the review page but not on the server, so the model does not claim them for the server: statuses only move forward one stage at a time, each reviewer is bound to its own stage, and each attribution column is written once. The server checks only the reviewer role, and its update is unconditional. There is no error for a status mismatch or a lost concurrent write.

## Findings

| source | as written | input that shows it | evidently intended | confidence | as-written member | corrected member |
|---|---|---|---|---|---|---|
| src/worker/index.ts:76-77 | splits the Cookie header on ';' and looks for a piece starting with `name=` without removing the space a user agent puts after each ';' | header "a=1; tok=xyz" with session cookie `tok` | the session cookie is found wherever it stands in the header, so logout deletes the session | high, not executed | SessionCookie.LaterCookieSessionSurvivesLogout | SessionCookie.LogoutDeletesOnlyFirstCookie |
| src/worker/index.ts:78 | takes the second '='-separated part of the cookie piece, cutting a value that itself holds '=' | header "tok=ab==" | the whole value after the first '=' | medium (depends on whether session tokens can hold '='), not executed | SessionCookie.PaddedValueLogout | SessionCookie.LogoutDeletesOnlyFirstCookie |
