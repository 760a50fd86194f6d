# Calendo core, modelled in Dafny

Calendo is a team calendar. Users register and join teams. A team has a
calendar of events. Its members create events, vote on them and merge
everyone's events into one timeline of occupied and free time. This project
models the server-side rules behind those actions. It also models the client
code that checks the stored token and turns failed requests into errors.

- `wrappers.dfy`: `Option`, `Result` and `Outcome`.
- `jsvalues.dfy`: the JavaScript behaviour the rules rely on.
  - JavaScript truthiness of an optional string.
  - `indexOf` and `split` on one separator, with `split` inverted by `join`.
  - Substring search.
  - Decimal rendering of a status code and parsing it back.
- `events.dfy`: event documents and team calendars as classes.
  - createEvent's validation and conflict check, then its append to the calendar.
  - updateEvent and deleteEvent, which only the event's creator may do.
  - addVoteToEvent.
- `merge.dfy`: mergeTeamCalendars.
  - The handler copies the events into an array, sorts it in place by start time and scans it into occupied and free slots.
  - The scan is also a left fold, `Run`, which the lemmas use.
- `teams.dfy`: a team as a class with its admin and its member list.
  - createTeam, addMember, changeMemberRole and leaveTeam.
  - The admin guard of removeMember.
- `auth.dfy`: registerUser's email and password regular expressions, written out character by character, and the order of its checks.
- `middleware.dfy`: the authenticateAdmin gate and the rbacMiddleware gate.
- `calendar_service.dfy`: the client's validateToken, the error handleResponse builds for a failed response, and the error remapping in syncGoogleCalendar.

Conventions:

- Instants are integers in no fixed unit: the handlers hold milliseconds, and the merge counterexample uses minutes of the day. Date parsing and ISO rendering are not modelled.
- A JavaScript field that is missing is `None`. A missing string field and an empty one are both falsy; `Truthy` tells them apart from a real value.
- A database lookup (`findById`, `findOne`, `User.find`) becomes a parameter of the operation.
  - A document that was found arrives as an object; `null` means not found.
  - A set of known ids stands for `User.find`.
  - A set of taken names or emails stands for `findOne`. The set holds the values after the schema's `trim` and `lowercase` setters (backend/src/models/User.js lines 16-17, backend/src/models/Team.js line 8), which the model does not apply to the request.
  - The id the database assigns is passed in.
- The handlers' HTTP answers are modelled as result values.
  - One error constructor per status-and-message pair.
  - `Pass` or `Success` stands for the 2xx answer.

Where the code departs from what the application evidently means to do, the model follows the code, with one exception, the conflict check of createEvent (last item):

- A team calendar is meant to be contiguous slots whose occupied parts cover every event. The merge scan never widens an occupied slot it has already pushed: an event that overlaps the open slot only moves the cursor (see Findings).
- An event is meant to start no later than it ends. createEvent does not check that `startTime <= endTime`.
- An event that overlaps one already in the calendar is meant to be rejected. The conflict check of createEvent cannot fire as written (see Findings). Here the model does not follow the code: `CreateEvent` uses the intended strict-overlap check, and `FindConflictAsWritten` models the check as written.

## Model

| member | source | states |
|---|---|---|
| JsValues.Split | frontend/src/screens/services/CalendarService.ts:44-45 | `split('.')` gives one more part than there are dots, and no part contains a dot |
| JsValues.JoinSplit | frontend/src/screens/services/CalendarService.ts:44 | joining the parts of a split with the separator gives back the original string |
| JsValues.ParseNatToString | frontend/src/screens/services/CalendarService.ts:67 | the decimal rendering of a status parses back to that status |
| Events.Event.constructor | backend/src/controllers/eventController.js:50-56 | a new event carries the given id, title, times, creator and participants, with no date and no votes |
| Events.TeamCalendar.constructor | backend/src/controllers/teamController.js:29-32 | a new team calendar belongs to its team and creator and lists no events |
| Events.ConflictsSymmetric | backend/src/controllers/eventController.js:41 | the strict-overlap test gives the same answer with the two intervals swapped |
| Events.TouchingDoesNotConflict | backend/src/controllers/eventController.js:41 | intervals that only touch at an end point do not conflict |
| Events.FindConflict | backend/src/controllers/eventController.js:39-42 | `find` gives the first existing interval that overlaps the candidate, and nothing exactly when none does |
| Events.AwaitedLookupConflicts | backend/src/controllers/eventController.js:40-41 | when the event is actually loaded, the test on line 41 is exactly strict overlap |
| Events.FindConflictAsWritten | backend/src/controllers/eventController.js:39-42 | the `find` as written over what each lookup produced; a reported position is inside the calendar's list |
| Events.UnawaitedLookupNeverConflicts | backend/src/controllers/eventController.js:39-42 | with the lookups not awaited, the search finds no conflict for any candidate and any calendar |
| Events.AwaitedLookupFindsConflict | backend/src/controllers/eventController.js:39-42 | with the lookups awaited, the search finds exactly the first conflicting event |
| Events.ConflictCheckCounterexample | backend/src/controllers/eventController.js:39-47 | [0,10) is admitted as written against a stored [5,15), although it overlaps that event |
| Events.ParticipantsValidIff | backend/src/controllers/eventController.js:21-24 | the number of users found equals the number of ids exactly when the ids are distinct and all known |
| Events.AdmitEvent | backend/src/controllers/eventController.js:11-47 | missing fields are rejected first; "Invalid participant IDs" is the answer iff the fields are present and the participants are not distinct and known; admission holds iff the fields are present, the participants are distinct and known, and nothing conflicts; a request that passes both checks and is refused is refused for a conflict, and a reported conflict is a real overlap |
| Events.CreateEvent | backend/src/controllers/eventController.js:7-63 | given the intervals of the listed events position by position, a rejected request leaves the calendar's list unchanged; an accepted one creates a fresh event whose participants are the creator followed by the requested ones, and appends exactly its id to the list |
| Events.UpdateEvent | backend/src/controllers/eventController.js:96-122 | 404 for no event, then 403 for anyone but the creator, then 400 for bad participants, each with no change; the creator with absent or valid participants always succeeds, and then each field left out keeps its old value and votes are untouched |
| Events.DeleteEvent | backend/src/controllers/eventController.js:131-144 | a missing event gets 404, an event created by someone else gets 403, and deletion goes ahead iff the event exists and the requester created it |
| Events.OnlyCreatorDeletes | backend/src/controllers/eventController.js:140-142 | anyone but the creator gets 403 |
| Events.FindOption | backend/src/controllers/eventController.js:169 | the position of the first vote entry for the option, or none when no entry has it |
| Events.CastVote | backend/src/controllers/eventController.js:168-183 | a vote is rejected iff the option's first entry already lists the user; otherwise the result is exactly that entry with the user appended to its voters, or the list with `{option, [user]}` appended when no entry has the option |
| Events.CastVotePreservesWellFormed | backend/src/controllers/eventController.js:168-183 | options stay listed once and voter lists stay duplicate-free |
| Events.CastVoteSpec | backend/src/controllers/eventController.js:168-183 | with options listed once: the vote is rejected iff the user already voted for that option; otherwise the exact update or the exact append happens |
| Events.AddVoteToEvent | backend/src/controllers/eventController.js:152-185 | no option gives 400 before the lookup, then 404; otherwise the event's votes become what `CastVote` gives, nothing else changes, and well-formed votes stay well formed |
| TeamCalendarMerge.MaxEndBounds | backend/src/controllers/teamCalendarController.js:48-51 | the maximum end is at least every end and is one of them |
| TeamCalendarMerge.Step | backend/src/controllers/teamCalendarController.js:32-52 | one iteration keeps every slot already pushed, adds at most two (exactly one while the cursor is null), sets the cursor, and never moves it back for an event that starts no later than it ends |
| TeamCalendarMerge.Run | backend/src/controllers/teamCalendarController.js:29-52 | no events give no slots and a null cursor; otherwise the cursor is set and there are fewer than two slots per event |
| TeamCalendarMerge.RunCursorSet | backend/src/controllers/teamCalendarController.js:29-33 | the output is empty iff the input is empty iff the cursor is still null |
| TeamCalendarMerge.FirstSlotOccupied | backend/src/controllers/teamCalendarController.js:33-47 | for a non-empty input the first slot is occupied and is the first event's interval |
| TeamCalendarMerge.FreeSlotsPositive | backend/src/controllers/teamCalendarController.js:33-40 | every free slot has strictly positive length |
| TeamCalendarMerge.CursorIsMaxEnd | backend/src/controllers/teamCalendarController.js:48-51 | when every start is at most its end, the cursor is the maximum end processed so far |
| TeamCalendarMerge.RunExtends | backend/src/controllers/teamCalendarController.js:43-51 | processing more events only appends slots; slots already pushed never change |
| TeamCalendarMerge.AbsorbedEventPushesNothing | backend/src/controllers/teamCalendarController.js:33-51 | an event starting at or before the cursor, including one that touches it, pushes no slot and can only move the cursor later |
| TeamCalendarMerge.OccupiedOneMoreThanFree | backend/src/controllers/teamCalendarController.js:33-47 | for a non-empty input there is one more occupied slot than free slots |
| TeamCalendarMerge.OccupiedSlotsAreEvents | backend/src/controllers/teamCalendarController.js:43-47 | every occupied slot is exactly the interval of one input event |
| TeamCalendarMerge.FreeSlotsClearInvariant | backend/src/controllers/teamCalendarController.js:26-51 | over a sorted prefix, free slots avoid every event seen so far and end at or before the last processed start |
| TeamCalendarMerge.FreeSlotsAvoidEvents | backend/src/controllers/teamCalendarController.js:26-40 | when the events are sorted and well formed, no event overlaps any free slot |
| TeamCalendarMerge.MergeGapCounterexample | backend/src/controllers/teamCalendarController.js:33-51 | 9:00-10:00, 9:30-11:00 and 13:00-14:00 give occupied 9-10, free 11-13 and occupied 13-14, so 9:30-11:00 is in no occupied slot |
| TeamCalendarMerge.WidenedInvariantHolds | backend/src/controllers/teamCalendarController.js:33-51 | the widening scan keeps its last slot occupied and ending at the cursor, its slots contiguous, and every event covered |
| TeamCalendarMerge.StepWidened | backend/src/controllers/teamCalendarController.js:32-52 | the corrected iteration adds at most two slots (exactly one while the cursor is null) and sets the cursor |
| TeamCalendarMerge.RunWidened | backend/src/controllers/teamCalendarController.js:29-52 | the corrected scan gives no slots for no events, and otherwise a set cursor and fewer than two slots per event |
| TeamCalendarMerge.WidenedMergeCoversEvents | backend/src/controllers/teamCalendarController.js:33-51 | for sorted, well-formed events the widening scan gives contiguous slots, and each event lies inside an occupied slot |
| TeamCalendarMerge.InsertAt | backend/src/controllers/teamCalendarController.js:26 | one insertion step: the array stays a permutation and its sorted prefix grows by one |
| TeamCalendarMerge.SortByStart | backend/src/controllers/teamCalendarController.js:26 | the array ends sorted by start time and holds the same intervals |
| TeamCalendarMerge.CopyIntervals | backend/src/controllers/teamCalendarController.js:17-23 | a fresh array holds each event's interval, in the order of the events |
| TeamCalendarMerge.Scan | backend/src/controllers/teamCalendarController.js:29-52 | the loop over the array computes exactly the fold `Run` of its contents |
| TeamCalendarMerge.SortedScanProperties | backend/src/controllers/teamCalendarController.js:29-51 | every property above, stated for the scan of a sorted input |
| TeamCalendarMerge.MergeTeamCalendars | backend/src/controllers/teamCalendarController.js:17-52 | the result is the scan of a sorted permutation of the events; it is empty iff there are no events; its first slot is occupied; free slots are positive; occupied slots outnumber free ones by one and are event intervals; and for well-formed events no free slot overlaps an event |
| Teams.IndexOfUser | backend/src/controllers/teamController.js:157-158 | `findIndex` gives the first entry for the user, or none exactly when the user is not a member |
| Teams.WithoutUserRemovesEntry | backend/src/controllers/teamController.js:179 | with no duplicates, filtering out the user removes exactly that entry and keeps the others in order |
| Teams.WithoutUser | backend/src/controllers/teamController.js:179 | after the filter the user is no longer a member |
| Teams.WithoutUserKeeps | backend/src/controllers/teamController.js:179 | the filter keeps exactly the entries of the other users |
| Teams.NoDuplicatesAfterRemoval | backend/src/controllers/teamController.js:179 | removing one entry keeps every user listed at most once |
| Teams.FirstOtherMember | backend/src/controllers/teamController.js:173 | the new admin entry is the first entry at a position other than the leaver's |
| Teams.Team.constructor | backend/src/controllers/teamController.js:15-24 | a new team has the creator as admin and as its only member, with role admin |
| Teams.Team.AddMember | backend/src/controllers/teamController.js:45-66 | an existing member is rejected before the admin test, then anyone but the admin is rejected, in both cases with no change; the admin adding a non-member always succeeds, appending `{userId, member}`, and no user appears twice |
| Teams.Team.ChangeMemberRole | backend/src/controllers/teamController.js:120-139 | anyone but the admin is rejected, then a non-member; the admin changing a member's role always succeeds, and only the matched entry's role changes |
| Teams.Team.LeaveTeam | backend/src/controllers/teamController.js:147-180 | a non-member is rejected; an admin who is the only member deletes the team; every other member leaves, with the leaver's entry removed and the order kept, and a departing admin hands over to the first other member |
| Teams.CreateTeam | backend/src/controllers/teamController.js:5-34 | a taken name is rejected and a free one always accepted, giving a fresh team with the creator as sole admin member and a fresh, empty calendar for it |
| Teams.RemoveMemberAdminCheck | backend/src/controllers/teamController.js:84-87 | removeMember goes on iff the requester is the admin |
| Auth.EmailRegexTestCorrect | backend/src/controllers/authController.js:10-11 | the character scan `EmailRegexTest` accepts a string iff it splits as local@domain.tld, each part non-empty and free of whitespace and `@` |
| Auth.AcceptedEmailShape | backend/src/controllers/authController.js:10 | an accepted email has exactly one `@` and no whitespace, and its domain has a dot that is neither its first nor its last character |
| Auth.PasswordRegexMeaning | backend/src/controllers/authController.js:16 | `PasswordRegexTest`, the four look-aheads and the body of the regex, accepts a password iff it has at least 8 characters, all letters, digits or `@$!%*?&#`, including a lower-case letter, an upper-case letter, a digit and one of the specials |
| Auth.LookaheadIsHas | backend/src/controllers/authController.js:16 | on a string without line terminators, each look-ahead of the password regex means the string contains such a character |
| Auth.ForeignCharacterRefused | backend/src/controllers/authController.js:16 | a password holding any other character, such as a space or `-`, is refused |
| Auth.RegisterUser | backend/src/controllers/authController.js:9-27 | email format first (a missing email tests as "undefined" and fails), then a missing or weak password, and only then the existing-user check |
| Middleware.AuthenticateAdmin | backend/src/middlewares/authenticateAdmin.js:4-14 | 401 iff there is no user or no role; 403 iff the role is anything but "admin"; next iff the role is "admin"; always exactly one of the three |
| Middleware.Rbac | backend/src/middlewares/rbacMiddleware.js:5-12 | next iff the role is in the allowed list, otherwise 403 "Access denied"; with no user at all, reading the role throws |
| Middleware.EmptyRoleListDeniesAll | backend/src/middlewares/rbacMiddleware.js:8 | an empty allowed list denies every user |
| Middleware.RbacMonotone | backend/src/middlewares/rbacMiddleware.js:8 | allowing more roles never takes access away from a role that had it |
| CalendarService.ValidateToken | frontend/src/screens/services/CalendarService.ts:38-50 | a missing or empty token gives 401 "No authentication token found"; otherwise it passes iff it has exactly two dots, is returned unchanged, and any other count gives 401 "Invalid token format" |
| CalendarService.StatusMessage | frontend/src/screens/services/CalendarService.ts:67 | the fallback is "Request failed with status " followed by the status in decimal: digits that parse back to it, with no leading zero unless the status is 0 |
| CalendarService.ResponseError | frontend/src/screens/services/CalendarService.ts:56-71 | a JSON null body makes reading `.message` throw a TypeError; otherwise the APIError keeps the status, the body's details and the request info, and its message is the body's message when there is one, else "Request failed with status " followed by the status in decimal: digits that parse back to it, with no leading zero |
| CalendarService.HandleResponse | frontend/src/screens/services/CalendarService.ts:52-79 | a response that is not ok throws what `ResponseError` gives; an ok response passes iff its content type contains application/json, otherwise 500 "Invalid response format" |
| CalendarService.RemapSyncError | frontend/src/screens/services/CalendarService.ts:169-189 | a 401 or 400 APIError gets the re-login or permissions message with its status, details and request info kept; any other APIError is rethrown unchanged; any other error becomes "Calendar synchronization failed" |
| CalendarService.GetGoogleCalendarEvents | frontend/src/screens/services/CalendarService.ts:113-123 | events pass through, an APIError is rethrown, and anything else becomes "Failed to fetch calendar events" |
| CalendarService.BadTokenAsksToLogIn | frontend/src/screens/services/CalendarService.ts:156-178 | a missing or malformed token ends the sync with the 401 re-login error |
| CalendarService.SyncWithGoodToken | frontend/src/screens/services/CalendarService.ts:156-189 | with a well-formed token, the sync returns the fetched events; a null result ends it with "Calendar synchronization failed", an APIError from the fetch keeps its status, details and request info, and one whose status is neither 401 nor 400 is rethrown unchanged |
| CalendarService.SyncGoogleCalendar | frontend/src/screens/services/CalendarService.ts:156-190 | the sync succeeds iff the token is read and valid and the fetch gives a non-null list, which it returns; a failure with status 401 or 400 always carries the re-login or the permissions message; a failed token read and a failed fetch go through `RemapSyncError`, so a plain thrown error becomes "Calendar synchronization failed" |
| CalendarService.NullErrorBodyLosesStatus | frontend/src/screens/services/CalendarService.ts:60-71 | a failed response whose body is JSON null ends the sync with the status-less "Failed to fetch calendar events", whatever its status |

## Findings

| source | as written | input that shows it | evidently intended | confidence | as-written member | corrected member |
|---|---|---|---|---|---|---|
| backend/src/controllers/eventController.js:39-42 | `Event.findById(eventId)` is not awaited, so `event.startTime` and `event.endTime` are undefined and both comparisons are false | a stored event [5,15) and a new event [0,10) in the same calendar: it is admitted | reject a candidate that strictly overlaps a stored event | high, not executed | Events.ConflictCheckCounterexample | Events.AwaitedLookupFindsConflict |
| backend/src/controllers/teamCalendarController.js:33-51 | an event that overlaps the open occupied slot moves only the cursor; the slot's end is never widened | 9:00-10:00, 9:30-11:00, 13:00-14:00: 10:00-11:00 is neither occupied nor free | the open occupied slot grows to the cursor, so slots are contiguous and cover every event | medium, not executed | TeamCalendarMerge.MergeGapCounterexample | TeamCalendarMerge.WidenedMergeCoversEvents |

The event model uses the first correction: `Events.CreateEvent` admits an event through `Events.FindConflict`, which the lemma `Events.AwaitedLookupFindsConflict` equates with the awaited lookup. The merge does not use the second: `TeamCalendarMerge.MergeTeamCalendars` models the scan as written, because the handler returns exactly that output. The widening scan `TeamCalendarMerge.RunWidened` is the corrected definition next to it.

## Left out

- Date handling is left out: `new Date(...)`, the `isNaN` format check of createEvent, moment objects and `toISOString`. Instants are integers and slots carry them directly.
- createEvent's branch for a team calendar that does not exist is left out. As written, that branch goes on to read `teamCalendar.events` on `null` and throws. The model takes an existing calendar. `TeamCalendar.findOne({ teamId })` filters on a path the schema names `team` (backend/src/models/teamCalendar.js line 4), so the calendar it returns need not belong to the request's team; the model's `calendar` is whatever that lookup returns, and is not tied to the team.
- Sessions and transactions, `notifyClients`, `console` logging, the 500 answers from `catch` blocks, and the saving of documents are left out. A save is the method's new state.
- Database queries are represented by the documents they return (see Conventions). getUserEvents, getVotesForEvent and getTeamDetails, which only query and populate, are not modelled.
- Mongoose schema validation on save is left out. Examples are a role string outside the enum and a missing required title.
- The Event schema stores `options` while the controller reads and writes `votes`. The model follows the controller.
- ObjectId-against-string comparisons are modelled as string equality. In `removeMember`, `team.members.includes(userId)` and the filter compare member objects with a string id. Only the admin guard of removeMember is modelled, because the rest does not work on subdocuments.
- The 404 "Team not found" of addMember, removeMember, changeMemberRole and leaveTeam (teamController.js lines 50-52, 80-82, 125-127, 152-154) is left out. The Team methods are called on the team a successful lookup returned, so they start after that check.
- Teams.Team.LeaveTeam and the other Team methods require `Valid()` (no user listed twice and the admin among the members). The creating constructor establishes it and every modelled method preserves it. A document that violates it is not handled.
- TeamCalendarMerge.SortByStart: proves sortedness and the same multiset of intervals, but not the stability of `Array.prototype.sort`. The required order of events with equal starts is therefore not stated.
- TeamCalendarMerge.MergeTeamCalendars: because the sort's order among equal starts is not stated, the result is not fixed by the contract when two events start together. For [0,5) listed before [0,10) the scan gives one occupied slot 0-5; in the other order it gives 0-10.
- TeamCalendarMerge.FreeSlotsAvoidEvents and TeamCalendarMerge.CursorIsMaxEnd: assume every event starts at or before its end. The source does not check this, and an inverted event is left unconstrained.
- The client's makeRequest, getAuthHeaders, fetch and AsyncStorage are left out. The stored token and the fetch result are parameters of `SyncGoogleCalendar`. The create, update, delete and merge request wrappers only forward to makeRequest and are left out as well.
- JSON parsing of an error body is represented by its outcome: text that does not parse, JSON null, or a value read for `message` and `details`. A `message` that is not a string is not modelled.
- loginUser, JWT signing and bcrypt hashing are left out, as are the OAuth, Google and Apple controllers and the socket layer.
- The email and password regular expressions are written out as character tests, following the ECMAScript definitions of `\s`, `\d` and `.`. A general regular-expression engine is not part of this model.
