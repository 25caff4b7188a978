# Emergency dispatch core, modelled in Dafny

This project models the core of an emergency call and dispatch system. A call
taker records an incident. Keyword scoring of the caller's narrative against
the triage protocols suggests what kind of incident it is. The stored incident
waits in a dispatch queue ordered by priority. A dispatcher then assigns one or
more available vehicles (resources) to it in a single transaction. A WebSocket
gateway broadcasts each new incident and each dispatch. The dispatcher's browser
store mirrors the queue and the available vehicles from those broadcasts.

Modules, one per file:

- `Common` (`common.dfy`): identifiers, `Option`, `Result`, and the errors the
  services raise.
- `Entities` (`entities.dfy`): the status enumerations, the records of each
  table, and `Database`, a class with one field per table (maps keyed by id, and
  the assignments as a sequence).
- `Sorting` (`sorting.dfy`): `Array.prototype.filter` and the engine's stable
  `Array.prototype.sort` as functions on sequences. It also holds the
  order-and-permutation lemmas about them.
- `Dispatch` (`dispatch.dfy`): the gateway's broadcast log and the queue and
  availability views. `Assign` states the assignment transaction as one atomic
  step. `Consistent` is the invariant that step keeps. The class
  `DispatchService` has imperative methods proved against these definitions.
- `Triage` (`triage.dfy`): normalisation, whitespace splitting, tokenising,
  keyword scoring, and the `AnalyzeNarrative` loops.
- `Incidents` (`incidents.dfy`): call intake and the incident-nature table
  (`IncidentsService`).
- `Resources` (`resources.dfy`): the vehicle table (`ResourcesService`).
- `ClientStore` (`client.dfy`): the reducers of the browser store and the
  payload of `incident:assigned`. `DispatchStore` holds the store's connection
  and list state.

Generated ids and timestamps come from the database; here they are parameters
(`newId`, `now`). Each id is required to be fresh. Fetch results, the
authentication token and HTTP response status are parameters of the client
methods. A rejected transaction is an `Err` result that leaves every table as it
was.

## Model

| member | source | states |
|---|---|---|
| Sorting.Filter | client/src/store/dispatch.store.ts:102-107 | the kept elements are exactly those of the input that satisfy the predicate, and there are no more of them than input elements |
| Sorting.FilterAppend | client/src/store/dispatch.store.ts:169-171 | filtering a concatenation is the concatenation of the filtered parts, so relative order is kept |
| Sorting.FilterPairwise | client/src/store/dispatch.store.ts:169-171 | any relation that holds between each element and every later one still holds after filtering |
| Sorting.SortBy | server/src/incidents/incidents.service.ts:130 | the sorted list is a permutation of its input |
| Sorting.SortBySorted | server/src/incidents/incidents.service.ts:130 | under a total preorder, the sorted list is ordered |
| Dispatch.Gateway.NotifyNewIncident | server/src/dispatch/dispatch.gateway.ts:34-37 | `incident:new` carrying the incident is appended to the broadcast log |
| Dispatch.Gateway.NotifyIncidentAssigned | server/src/dispatch/dispatch.gateway.ts:43-46 | `incident:assigned` carrying the bare incident is appended to the broadcast log |
| Dispatch.QueueOrderTotal | server/src/dispatch/dispatch.service.ts:46 | the intended dispatch order (more urgent first, then earlier call first) is total and transitive |
| Dispatch.DatabaseQueueBefore | server/src/dispatch/dispatch.service.ts:46 | between two different levels, the order `priority: 'DESC'` gives on the enum column is the reverse of the dispatch order; `DatabaseOrderPutsInfoFirst` shows it on red and info |
| Dispatch.DatabaseOrderPutsInfoFirst | server/src/dispatch/dispatch.service.ts:46 | as written, the database order places an info call before a red one; the intended order places red first |
| Dispatch.QueueExample | server/src/dispatch/dispatch.service.ts:42-49 | the only queue of green@3, red@1, red@2 and yellow@1 is red@1, red@2, yellow@1, green@3 |
| Dispatch.FoundIds | server/src/dispatch/dispatch.service.ts:76-78 | the rows `In(ids)` returns are exactly the requested ids that are stored, each once, so no more than were requested |
| Dispatch.FoundAllIff | server/src/dispatch/dispatch.service.ts:79-83 | the length check passes if and only if every requested id is stored and none is repeated; the found rows are then the request itself |
| Dispatch.FirstUnavailable | server/src/dispatch/dispatch.service.ts:87-92 | no id is reported exactly when every found resource is available; one reported is a found resource that is not |
| Dispatch.FirstUnavailableAt | server/src/dispatch/dispatch.service.ts:87-92 | the loop rejects the first found resource that is not available |
| Dispatch.EnRouteAll | server/src/dispatch/dispatch.service.ts:93 | setting resources en route keeps the same set of resource ids |
| Dispatch.AssignmentsFor | server/src/dispatch/dispatch.service.ts:95-99 | one new assignment per found resource |
| Dispatch.Assign | server/src/dispatch/dispatch.service.ts:60-111 | the transaction inserts and deletes no incident or resource row and only appends assignments; every failure is one of the four rejections of the service; `AssignRejections` and `AssignSuccess` state which one and when |
| Dispatch.AssignRejections | server/src/dispatch/dispatch.service.ts:62-92 | the four rejections, checked in the service's order: incident not found, incident not awaiting dispatch, resources not found if and only if an id is missing or repeated, and a resource not available if and only if one of them is not |
| Dispatch.AssignSuccess | server/src/dispatch/dispatch.service.ts:86-110 | the transaction commits if and only if the incident awaits dispatch and the ids name distinct stored available resources; the commit dispatches the incident, puts each named resource en route, leaves the others alone, and appends exactly one assignment per named resource |
| Dispatch.AssignTwiceFails | server/src/dispatch/dispatch.service.ts:69-74 | assigning an incident that was just dispatched is rejected as not awaiting dispatch |
| Dispatch.SharedResourceFails | server/src/dispatch/dispatch.service.ts:88-93 | a later request naming a resource that is already committed is rejected |
| Dispatch.AssignPreservesConsistency | server/src/dispatch/dispatch.service.ts:60-111 | a committed non-empty request keeps the invariant: every assignment links an incident past awaiting dispatch and a resource that is not available, no resource is booked twice, and every dispatched incident has a unit |
| Dispatch.CommitKeepsActive | server/src/dispatch/dispatch.service.ts:93-107 | after a commit, old and new assignments still link an incident past awaiting dispatch and a resource that is not available |
| Dispatch.CommitKeepsSingleBooking | server/src/dispatch/dispatch.service.ts:93-107 | after a commit no resource appears in two assignments |
| Dispatch.CommitKeepsUnits | server/src/dispatch/dispatch.service.ts:99-108 | after a commit every dispatched incident has an assignment |
| Dispatch.EmptyRequestDispatchesWithoutUnit | server/src/dispatch/dto/assign-resources.dto.ts:8-11 | as written, an empty resource list commits: the incident is dispatched with no assignment and the invariant breaks |
| Dispatch.AssignLeavesViews | server/src/dispatch/dispatch.service.ts:42-56 | after a commit no queue holds the incident and no availability list holds a named resource |
| Dispatch.EnRouteEach | server/src/dispatch/dispatch.service.ts:86-100 | the loop rejects exactly the first found resource that is not available; otherwise it sets every found resource en route and creates their assignments, in found order |
| Dispatch.DispatchService.HandleIncidentCreation | server/src/dispatch/dispatch.service.ts:34-38 | the created incident is broadcast as `incident:new` |
| Dispatch.DispatchService.GetQueue | server/src/dispatch/dispatch.service.ts:42-49 | the result holds exactly the stored incidents awaiting dispatch, each once, in the intended dispatch order |
| Dispatch.DispatchService.GetAvailableResources | server/src/dispatch/dispatch.service.ts:51-56 | the result holds exactly the available stored resources, each once |
| Dispatch.DispatchService.AssignResources | server/src/dispatch/dispatch.service.ts:58-117 | the tables become the commit of `Assign` and `incident:assigned` is broadcast afterwards; a rejection returns its error, writes nothing and broadcasts nothing; the tables stay keyed by id |
| Triage.FoldChar | server/src/incidents/incidents.service.ts:156-159 | an ASCII capital becomes its lower-case letter; every accented Latin-1 letter, capital or small, becomes its base letter (`á`, `Ã` to `a`, `ç` to `c`, `ñ` to `n`, `ý`, `ÿ` to `y`, ...); the other Latin-1 capitals only lose their case; every other character (`×`, `ß`, `æ`, `ð`, `÷`, `ø`, `þ` and everything outside ASCII capitals and Latin-1) is kept |
| Triage.Normalize | server/src/incidents/incidents.service.ts:156-161 | every character of the result is in normal form (folded, and not a combining mark), and the result is no longer than the input |
| Triage.NormalizeAppend | server/src/incidents/incidents.service.ts:156-161 | normalising a concatenation is concatenating the normalised parts |
| Triage.NormalizeChar | server/src/incidents/incidents.service.ts:156-161 | one character normalises to its folded form, or to nothing when that is a combining mark |
| Triage.NormalizeKeepsNormal | server/src/incidents/incidents.service.ts:156-161 | a text already in normal form is left unchanged |
| Triage.NormalizeIdempotent | server/src/incidents/incidents.service.ts:156-161 | normalising twice is normalising once |
| Triage.NormalizeKeepsSpaces | server/src/incidents/incidents.service.ts:156-161 | whitespace survives normalisation |
| Triage.Split | server/src/incidents/incidents.service.ts:149 | `split(/\s+/)` gives at least one piece; no piece holds whitespace; the pieces concatenate to the input without its whitespace; only the first and last piece can be empty |
| Triage.SplitWord | server/src/incidents/incidents.service.ts:149 | a word without whitespace splits into itself |
| Triage.SplitSpaceRun | server/src/incidents/incidents.service.ts:149 | a leading run of whitespace before a word (or the end) yields exactly one empty piece in front of the pieces of the rest |
| Triage.SplitWordThen | server/src/incidents/incidents.service.ts:149 | a word in front of a text whose first piece is empty fills that piece |
| Triage.SplitJoin | server/src/incidents/incidents.service.ts:149 | the split points are the whitespace runs: a word, a run of whitespace and a rest that starts with a word split into the word followed by the pieces of the rest |
| Triage.Utf16Length | server/src/incidents/incidents.service.ts:150 | `word.length` in UTF-16 units: the number of characters plus one for each character above U+FFFF, so between the number of characters and twice it |
| Triage.Utf16LengthBmp | server/src/incidents/incidents.service.ts:150 | for characters up to U+FFFF the JavaScript length is the number of characters |
| Triage.SurrogatePairToken | server/src/incidents/incidents.service.ts:150 | a two-character word holding a character above U+FFFF is a token, because its JavaScript length is three |
| Triage.Stopwords | server/src/incidents/incidents.service.ts:142-146 | the 26 stopwords as written, the accented `está` among them; `TokenShape` and `AccentedStopwordUnreachable` state what they filter |
| Triage.Tokenize | server/src/incidents/incidents.service.ts:139-151 | a token is exactly a piece of the normalised text whose JavaScript length exceeds two and that is not a stopword |
| Triage.TokenShape | server/src/incidents/incidents.service.ts:142-150 | every token has a JavaScript length above two (so at least two characters), is not a stopword, holds no whitespace, and is in normal form |
| Triage.PhraseNeverMatches | server/src/incidents/incidents.service.ts:113 | a keyword containing whitespace never matches a token |
| Triage.AccentedStopwordUnreachable | server/src/incidents/incidents.service.ts:145 | the accented stopword never occurs among the pieces of a normalised text |
| Triage.Score | server/src/incidents/incidents.service.ts:108-116 | one point per matching keyword entry, so never more than the number of keywords; `ScoreCounts` and `ScoreBounds` state it exactly |
| Triage.ScoreCounts | server/src/incidents/incidents.service.ts:108-116 | a protocol's score equals the number of keyword entries whose normalised form is among the tokens |
| Triage.ScoreBounds | server/src/incidents/incidents.service.ts:108-118 | the score is at most the number of keywords, and positive if and only if some keyword matches |
| Triage.LinkedProtocols | server/src/incidents/incidents.service.ts:101-104 | the query as intended by its `Not(null)` filter ("the protocol is linked"): exactly the protocols whose nature is set, in row order |
| Triage.Scored | server/src/incidents/incidents.service.ts:107-127 | the scored list holds exactly the suggestion of each protocol with a positive score, with that score |
| Triage.ScoreOrderTotal | server/src/incidents/incidents.service.ts:130 | the comparator `b.score - a.score` is a total preorder |
| Triage.TopFive | server/src/incidents/incidents.service.ts:130-133 | `sort(...).slice(0, 5)` keeps exactly min(5, n) entries; `TopFiveShape` and `TopFiveBest` state which, up to ties at the cut |
| Triage.Suggest | server/src/incidents/incidents.service.ts:93-134 | at most five suggestions: none without tokens, otherwise the five best of the scored linked protocols; `SuggestShape`, `MatchingProtocolSuggested` and `AnalyzeNarrative` state it |
| Triage.SuggestShape | server/src/incidents/incidents.service.ts:95-133 | no suggestion without tokens; otherwise exactly min(5, number of scoring protocols) suggestions, all scoring above zero, highest score first |
| Triage.TopFiveShape | server/src/incidents/incidents.service.ts:130-133 | sorting by `b.score - a.score` and keeping five keeps exactly min(5, n) entries, highest score first, all of them positive when every input score is |
| Triage.TopFiveBest | server/src/incidents/incidents.service.ts:130-133 | the kept entries come from the input; all of them when there are at most five; otherwise no entry left out outscores one kept |
| Triage.MatchingProtocolSuggested | server/src/incidents/incidents.service.ts:108-133 | a linked protocol with a matching keyword is suggested when at most five protocols score |
| Triage.AnalyzeNarrative | server/src/incidents/incidents.service.ts:93-134 | the nested loops compute exactly the suggestion list above |
| Triage.ScoreAll | server/src/incidents/incidents.service.ts:107-127 | the outer loop collects exactly the scored suggestions of the protocols, in order |
| Triage.ScoreKeywords | server/src/incidents/incidents.service.ts:109-116 | the inner loop computes the protocol's score |
| Incidents.Intake | server/src/incidents/incidents.service.ts:39-86 | it succeeds if and only if both references resolve; an unknown protocol is reported before an unknown operator; a new incident awaits dispatch at (longitude, latitude) and carries the draft's references, priority and narrative |
| Incidents.IntakeJoinsQueue | server/src/incidents/incidents.service.ts:73 | a new incident is in every queue of the updated table |
| Incidents.IntakeKeepsConsistency | server/src/incidents/incidents.service.ts:66-80 | storing a new incident keeps the dispatch invariant |
| Incidents.EndToEnd | server/src/dispatch/dispatch.service.ts:42-117 | a taken call is queued; assigning it one available resource commits and dispatches it; afterwards neither the call nor the resource is listed |
| Incidents.MergeNature | server/src/incidents/incidents.service.ts:203-206 | the merge keeps the id |
| Incidents.MergeNatureLaws | server/src/incidents/incidents.service.ts:203-206 | present patch fields replace the stored ones and absent ones keep them; an empty patch changes nothing; merging twice equals merging once |
| Incidents.IncidentsService.CreateIncident | server/src/incidents/incidents.service.ts:39-86 | a rejection saves and emits nothing; an acceptance stores the incident under its id and then emits it on `incident.created`, as stored |
| Incidents.IncidentsService.CreateNature | server/src/incidents/incidents.service.ts:168-171 | the new nature is stored under its id |
| Incidents.IncidentsService.FindNature | server/src/incidents/incidents.service.ts:183-193 | the stored nature if the id is known, otherwise not found |
| Incidents.IncidentsService.UpdateNature | server/src/incidents/incidents.service.ts:198-213 | an unknown id is reported as not found and changes nothing; a known one is replaced by the merge |
| Incidents.IncidentsService.RemoveNature | server/src/incidents/incidents.service.ts:218-225 | success if and only if a row was deleted; otherwise not found; the id is absent afterwards |
| Resources.Located | server/src/resources/resources.service.ts:23-28 | a location exists if and only if both coordinates are truthy, and it is ordered (longitude, latitude) |
| Resources.ZeroCoordinateDropsLocation | server/src/resources/resources.service.ts:23 | a zero latitude or longitude gives no location |
| Resources.MergeResource | server/src/resources/resources.service.ts:56-76 | an update keeps the id and the status |
| Resources.MergeResourceLaws | server/src/resources/resources.service.ts:57-76 | name and type are merged; the location is replaced only when both new coordinates are truthy and kept otherwise; updating twice equals updating once |
| Resources.UpdateKeepsConsistency | server/src/resources/resources.service.ts:57-62 | an update keeps the dispatch invariant |
| Resources.CreateKeepsConsistency | server/src/resources/resources.service.ts:18-33 | a created resource keeps the dispatch invariant and appears in every availability list |
| Resources.ResourcesService.Create | server/src/resources/resources.service.ts:18-33 | the new resource is stored available, with the location `Located` gives |
| Resources.ResourcesService.FindOne | server/src/resources/resources.service.ts:45-51 | the stored resource if the id is known, otherwise not found |
| Resources.ResourcesService.Update | server/src/resources/resources.service.ts:56-77 | an unknown id is reported as not found and changes nothing; a known one is replaced by the merge |
| Resources.ResourcesService.Remove | server/src/resources/resources.service.ts:82-87 | success if and only if a row was deleted; otherwise not found; the id is absent afterwards |
| ClientStore.AwaitingOnly | client/src/store/dispatch.store.ts:102-104 | the queue holds exactly the fetched incidents that await dispatch |
| ClientStore.AvailableOnly | client/src/store/dispatch.store.ts:105-107 | the list holds exactly the fetched resources that are available |
| ClientStore.QueueAfterNew | client/src/store/dispatch.store.ts:157-161 | the incident is added at the end; the earlier entries stay unchanged and in order |
| ClientStore.RemoveById | client/src/store/dispatch.store.ts:169-171 | exactly the entries with other ids are kept |
| ClientStore.RemoveByIdOrder | client/src/store/dispatch.store.ts:169-171 | removal works piecewise on a split queue, so order is kept; a queue without the id is unchanged |
| ClientStore.ReplaceById | client/src/store/dispatch.store.ts:173-175 | same length; entries with the resource's id become the resource; every other entry stays as it was |
| ClientStore.ReplaceByIdLaws | client/src/store/dispatch.store.ts:173-175 | replacing twice equals replacing once; a list without the id is unchanged |
| ClientStore.Received | server/src/dispatch/dispatch.gateway.ts:43-46 | a client receives exactly the bare incident for each `incident:assigned` broadcast |
| ClientStore.AssignedAsWritten | client/src/store/dispatch.store.ts:163-179 | a payload with both fields is applied (removal and replacement); a bare incident throws if and only if the queue or the resource list is non-empty, since a field of `undefined` is read only inside the callbacks, and otherwise leaves both lists as they were |
| ClientStore.AssignedBroadcastLeavesStore | client/src/store/dispatch.store.ts:64-66 | as written, every `incident:assigned` the server sends throws when either list is non-empty and otherwise changes nothing, so it never removes an incident |
| ClientStore.AssignedCorrected | client/src/store/dispatch.store.ts:168-171 | the corrected handler keeps exactly the entries with other ids |
| ClientStore.CorrectedHandlerMirrorsQueue | client/src/store/dispatch.store.ts:168-171 | with the corrected handler, a client showing the server's queue shows it again after a committed assignment |
| ClientStore.DispatchStore.Connect | client/src/store/dispatch.store.ts:40-45 | nothing happens when a socket is held; otherwise one socket is opened |
| ClientStore.DispatchStore.OnSocketConnect | client/src/store/dispatch.store.ts:47-50 | the socket is stored and the store is connected |
| ClientStore.DispatchStore.OnSocketDisconnect | client/src/store/dispatch.store.ts:52-54 | the socket is dropped and the store is disconnected |
| ClientStore.DispatchStore.Disconnect | client/src/store/dispatch.store.ts:74-77 | `socket` is null and `isConnected` is false afterwards |
| ClientStore.DispatchStore.LoadInitialData | client/src/store/dispatch.store.ts:82-112 | with no token or a failed fetch nothing changes; otherwise the queue and the list are replaced by the filtered fetch results |
| ClientStore.DispatchStore.AssignResources | client/src/store/dispatch.store.ts:118-153 | a request is sent if and only if there is a token; the user is alerted if and only if there is no token or the response failed; the store is never modified |
| ClientStore.DispatchStore.HandleIncidentNew | client/src/store/dispatch.store.ts:157-161 | the queue becomes the old queue with the incident appended |
| ClientStore.DispatchStore.HandleIncidentAssigned | client/src/store/dispatch.store.ts:163-179 | as written: a bare-incident payload fails exactly when a list is non-empty and never changes the store; a full payload applies the removal and the replacement |
| ClientStore.DispatchStore.HandleIncidentDispatched | client/src/store/dispatch.store.ts:168-171 | corrected handler: the incident leaves the queue by id |

## Left out

- Concurrency. Each assignment transaction is one atomic step. Database locking between concurrent assignments is not visible in the code, so it is not modelled.
- The WebSocket transport and socket.io. A broadcast is an entry in the gateway's log, and the client receives it as a parameter of its handler. Closing the socket in `disconnect` is not modelled.
- Authentication, token storage, and the HTTP and DTO wiring. The token and the fetch results are parameters. Drafts and patches carry only the fields their DTOs declare. Only the non-empty `resourceIds` rule is modelled, as `NonEmptyRequest`.
- Resources.MergeResource: the validation pipes do not strip undeclared body fields, so a body `status` or `id` reaches `preload` through the spread. A `status` is saved, and an `id` spread after the path id updates another row. The model's patch has no such fields, so "an update keeps the id and the status" holds only for bodies without them.
- Resources.ResourcesService.Create: a body `status` passes through `...rest` and is saved; the model always stores the new resource as available.
- Resources.ResourcesService.Update: same gap as `MergeResource`. The model does not include the undeclared body fields `status` and `id`.
- Resources.UpdateKeepsConsistency: it assumes an update never changes a status. A body `status` would be the only way for a committed resource to become available again, and `Consistent` would then not be kept.
- Incidents.MergeNature: a body `id`, spread after the path id, would redirect the update to another row; the model's patch has no `id`.
- The protocol service (PDF parsing and a language model), the React components, and `findAll` of each table. `findAll` just returns a table.
- Floating-point coordinates. A coordinate is a `real`; only its JavaScript truthiness and the (longitude, latitude) order are observed.
- Dispatch.FoundIds: the database may return the rows of `In(ids)` in any order. The model takes first-request order, which fixes which unavailable resource name is reported and the order of the new assignments.
- Triage.Normalize: Unicode lower-casing and NFD decomposition are modelled for ASCII and Latin-1 letters only. Any other character is left as it is, apart from removal of U+0300..U+036F.
- Triage.TopFiveShape, Triage.TopFive, Triage.TopFiveBest: the engine's sort is stable, and the model's insertion sort is stable too. The lemmas do not state the tie order, so when entries of equal score straddle the fifth place they do not say which of them are kept.
- Triage.LinkedProtocols: the `Not(null)` filter is taken to mean `IS NOT NULL`, as its comment says. Depending on the ORM version it may instead become a comparison with NULL that no row meets, and then no suggestion is ever made; the ORM is not part of this model.
- Triage.AnalyzeNarrative: the protocol rows and their order are a parameter, because the query does not fix an order.
- Dispatch.DispatchService.GetQueue, Dispatch.DispatchService.GetAvailableResources: the database's row order for equal keys and the eager loading of relations are not modelled. The queue is stated with the intended priority order (see Findings).
- Database constraints: unique resource names and nature codes, and foreign keys that would block deleting a referenced row, are not modelled.
- ClientStore.DispatchStore.Connect: `connect` stores its socket only when the `connect` event arrives. Two `connect` calls before that event open two sockets. The model counts opened sockets but does not state this as a defect.
- ClientStore.DispatchStore.LoadInitialData: the model does not include starting it after the `connect` event, or logging.

## Findings

| source | as written | input that shows it | evidently intended | confidence | as-written member | corrected member |
|---|---|---|---|---|---|---|
| server/src/dispatch/dispatch.service.ts:46 | `priority: 'DESC'` on a PostgreSQL enum column, which sorts by declaration order (red, yellow, green, info per the copy at client/src/components/TriageForm.tsx:8-13) | a red call and an info call both awaiting dispatch: the info call is queued first | most urgent first (red, yellow, green, info), then earliest call | not executed; medium, because the server's priority enum file is not part of this model | Dispatch.DatabaseOrderPutsInfoFirst | Dispatch.DispatchService.GetQueue |
| server/src/dispatch/dto/assign-resources.dto.ts:8-11 | `@IsNotEmpty` on an array accepts `[]` | `resourceIds: []` for an incident awaiting dispatch: it is dispatched with no unit | at least one resource (an array-not-empty check) | not executed; high | Dispatch.EmptyRequestDispatchesWithoutUnit | Dispatch.AssignPreservesConsistency |
| client/src/store/dispatch.store.ts:163-179 | the `incident:assigned` handler reads `assignment.incident.id` and `assignment.resource`, but the gateway sends the bare incident (server/src/dispatch/dispatch.gateway.ts:43-46) | any committed assignment seen by a client with a non-empty queue or resource list: the handler throws a TypeError and the dispatched incident stays in the queue (with both lists empty nothing runs and nothing changes) | remove the broadcast incident from the queue by its id | not executed; high | ClientStore.AssignedBroadcastLeavesStore | ClientStore.CorrectedHandlerMirrorsQueue |

The dispatch queue is meant to run from red through yellow and green down to
info, earliest call first within a level. The code as written sorts the levels
the other way, as the first finding shows. The model follows the code in
`DatabaseQueueBefore`, and uses the intended order in `GetQueue`.
