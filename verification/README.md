# my-turn: a verified model of the turn queue

my-turn is a walk-in service queue. Reception registers customers and issues them numbered
tickets (`A001`, `A002`, … per day). Agents at service modules call the next waiting customer and
complete the service. A public board shows the next tickets and where they will probably go.
Administrators edit modules, customers and staff.

This project models the core of that system in Dafny and proves properties of the model.

- **The turn engine.** Ticket numbering with the daily counter, turn creation, cancellation,
  FIFO call-next with the busy-module check, unconditional completion, the waiting and served
  listings, and the daily statistics.
- **The server services** for modules and staff: partial-update merges, creation, deletion and
  look-ups.
- **The pure client logic**: the board's module prediction, the agent dashboard's availability
  rule, the role-based route guard and route table, the admin dashboard's tab URLs, the
  reception search and queue preview, the edit forms' diff builders, and the client list caches.

The database is one immutable value, `Schema.Db`, holding the customers, staff, modules and turns
tables as sequences and the daily counters as a map from service date to number. Every service
call is a function from a `Db` to a `Step`: the new `Db` plus the value returned or the error
thrown. A call that throws can still have changed the state: a creation whose insert fails has
already advanced the day's counter. "Today", the current time, new row ids and the password hash
are parameters.

Modules:

- `Wrappers`: `Option` and `Result`.
- `Seqs`: find-first, filter and update-where on sequences.
- `Sorting`: a stable sort and first-minimum.
- `Text`: JavaScript's whitespace set, `toLowerCase` and `includes`.
- `Ticket`: decimal digits, `padStart` and the ticket code.
- `Schema`: the tables.
- `QueueService`: the turn engine.
- `QueueProperties`: properties relating several engine calls.
- `DisplayBoard`, `ModuleDashboard`, `ProtectedRoute`, `AppRoutes`, `DashboardTabs`, `Reception`
  and `EditForms`: the client pages and components.
- `ModuleService` and `PersonalService`: the module and staff services.
- `ListStores`: the three client list caches.

The code is modelled as written, not as it ought to be:
- There is no one-active-turn-per-customer check.
- `completeTurn` completes a turn whatever its status and records no `completedBy`.
- The ticket code is unique across the whole `turns` table, not per day. On a new day the first
  ticket `A001` therefore clashes with an earlier `A001`, and the failed creation still moves the
  day's counter (`QueueProperties.NewDayFirstTicketClashes`).

## Model

| member | source | states |
|---|---|---|
| `QueueService.InsertTurn` | server/src/db/schemas/turns.ts:14-37 | An insert succeeds iff four constraints hold: the ticket code fits `varchar(10)`, the id is new, the ticket code is new across all dates, and the referenced customer exists. On success exactly the row is appended; on failure nothing changes. |
| `QueueService.CreateTurnForUser` | server/src/services/queue.service.ts:20-74 | Reads today's counter (0 when absent) and writes back counter+1 before inserting. The new turn is waiting, has the copied name and national id, ticket code `TicketCode(counter+1)`, today's service date and no module or timestamps. Other dates' counters and the other tables are unchanged. A counter past the `integer` range fails without inserting a turn. |
| `QueueService.CreateTurn` | server/src/services/queue.service.ts:6-18 | Fails with user-not-found iff no customer has the national id, leaving counters and turns unchanged. Any other outcome, success or failure, is exactly `createTurnForUser` for a customer holding that national id, with its name copied (the national id column is unique). |
| `QueueService.CancelTurn` | server/src/services/queue.service.ts:76-103 | Fails with turn-not-found iff no turn has the id; any failure leaves the state unchanged. On success only the rows with that id change, to cancelled with `completedAt` stamped; counters are untouched. |
| `QueueService.CancelOutcome` | server/src/services/queue.service.ts:83-98 | Decided by the first turn with the id: completed is refused as completed, cancelled is refused as already cancelled, and waiting or being served is cancelled. |
| `QueueService.GetNextInQueue` | server/src/services/queue.service.ts:105-120 | Returns nothing iff no turn is waiting. Otherwise it returns a waiting turn with the smallest `createdAt`. |
| `QueueService.GetWaitingTurns` | server/src/services/queue.service.ts:169-181 | Returns exactly the waiting turns, as a multiset, in ascending `createdAt`. |
| `QueueService.GetCurrentlyServed` | server/src/services/queue.service.ts:183-197 | Returns exactly the turns being served, in ascending module uuid order with a missing module last. |
| `QueueService.AssignToModule` | server/src/services/queue.service.ts:122-157 | Fails with no-one-waiting iff no turn waits. It fails as busy when the module already serves a turn. It succeeds iff someone waits, the module is free and the module exists. On success only the next turn's row changes: it is being served at that module with `calledAt` set. Failures change nothing. |
| `QueueService.CompleteTurn` | server/src/services/queue.service.ts:159-167 | Every row with the id becomes completed with `completedAt` stamped, whatever its status. `completedBy` is untouched, other rows are unchanged, and an unknown id changes nothing. |
| `QueueService.GetQueueStats` | server/src/services/queue.service.ts:217-244 | `waiting` is the number of today's turns in `getWaitingTurns`, and `beingServed` the number in `getCurrentlyServed`. `completed` and `cancelled` count the table rows of today with that status, and `totalToday` all of today's rows. `nextTicket` is absent iff no turn waits or the next code is empty; otherwise it is the next turn's code. |
| `QueueService.CountStatusCountsRows` | server/src/services/queue.service.ts:220-234 | A date's count for a status is the number of table rows with that date and status. |
| `QueueService.CountStatusOfListing` | server/src/services/queue.service.ts:220-234 | The count of a date's turns of one status equals the number of that date's turns in any listing of the turns with that status. |
| `QueueProperties.CreationStep` | server/src/services/queue.service.ts:29-57 | A single creation attempt below the counter bound moves the date's counter by exactly one. When it succeeds, its ticket code is the code of the new number. |
| `QueueProperties.RunAdvancesCounter` | server/src/services/queue.service.ts:29-53 | Any step with that numbering property, run over k requests, moves the date's counter by k. |
| `QueueProperties.RunCodeAt` | server/src/services/queue.service.ts:29-57 | Any step with that numbering property, run over a list of requests, gives the attempt at position i, when it succeeds, the code of counter + i + 1. |
| `QueueProperties.RunNumbersConsecutively` | server/src/services/queue.service.ts:29-57 | Any step with that numbering property, run over k requests, gives every successful attempt the code of counter + its position + 1. |
| `QueueProperties.CreationsNumberConsecutively` | server/src/services/queue.service.ts:29-55 | Over any run of k creation attempts on one date, the counter grows by exactly k. The attempt at position i, when it succeeds, carries `TicketCode(counter + i + 1)`. |
| `QueueProperties.CreationCodeAt` | server/src/services/queue.service.ts:29-57 | In a run of creation attempts on one date, the attempt at position k, when it succeeds, carries `TicketCode(counter + k + 1)`. |
| `QueueProperties.CreationsIssueDistinctCodes` | server/src/services/queue.service.ts:48-55 | Two successful creations of one run on one date carry different ticket codes. |
| `QueueProperties.NewDayFirstTicketClashes` | server/src/db/schemas/turns.ts:24 | On a date with no counter yet, while an earlier `A001` exists, creation fails on the duplicate ticket code. The day's counter is nevertheless already 1. |
| `QueueProperties.CreateTurnIgnoresActiveTurns` | server/src/services/queue.service.ts:6-17 | A customer who already has a waiting turn still gets a new one when the insert constraints hold: there is no active-turn check. |
| `QueueProperties.CreateTurnForUserKeepsInvariant` | server/src/db/schemas/turns.ts:15-24 | Creation keeps turn ids unique, ticket codes unique and at most one served turn per module. |
| `QueueProperties.CreateTurnAppendsWaitingTurn` | server/src/services/queue.service.ts:6-67 | A `createTurn` past the customer look-up advances today's counter by one, or fails on the counter bound. On success it appends exactly one row: the new id, waiting, today's service date, no module and the new number's code. |
| `QueueProperties.CreateTurnKeepsInvariant` | server/src/services/queue.service.ts:6-17 | `createTurn` keeps turn ids unique, ticket codes unique and at most one served turn per module. |
| `QueueProperties.CancelTurnKeepsInvariant` | server/src/services/queue.service.ts:92-98 | Cancellation keeps the same three invariants. |
| `QueueProperties.CompleteTurnKeepsInvariant` | server/src/services/queue.service.ts:159-167 | Completion keeps the same three invariants. |
| `QueueProperties.BusyWitness` | server/src/services/queue.service.ts:131-139 | The busy check holds iff some turn is being served at that module. |
| `QueueProperties.ServeOneKeepsOneServed` | server/src/services/queue.service.ts:137-149 | Turning one non-served row into a row served at a module that served nothing keeps at most one served turn per module. |
| `QueueProperties.AssignRewritesOneRow` | server/src/services/queue.service.ts:122-149 | With unique turn ids, a successful call-next rewrites exactly one row. That row was waiting and becomes served at the module, and no row was being served there before. |
| `QueueProperties.AssignToModuleKeepsInvariant` | server/src/services/queue.service.ts:122-149 | Call-next keeps the three invariants, so no module ever gets a second turn being served. |
| `QueueProperties.CancelTwiceFails` | server/src/services/queue.service.ts:87-89 | After a successful cancellation, cancelling the same id again is refused as already cancelled and changes nothing. |
| `QueueProperties.CompleteTwiceIsOnce` | server/src/services/queue.service.ts:159-167 | Completing a turn twice equals completing it once at the later time. |
| `QueueProperties.NextIsHeadOfWaitingList` | server/src/services/queue.service.ts:105-120 | The turn `getNextInQueue` picks is the head of `getWaitingTurns`; both are empty together. |
| `QueueProperties.AssignServesHeadOfWaitingList` | server/src/services/queue.service.ts:125-149 | A successful call-next serves the head of the waiting list. |
| `QueueProperties.StatusCountsPartition` | server/src/services/queue.service.ts:220-234 | Today's counts for the four statuses add up to the number of today's turns. |
| `QueueProperties.StatsSumToTotal` | server/src/services/queue.service.ts:236-243 | waiting + beingServed + completed + cancelled = `totalToday`. |
| `QueueProperties.CompleteServedTurnUpdatesStats` | server/src/services/queue.service.ts:159-167 | Completing today's served turn, with unique ids, moves one from beingServed to completed. The other counts and the total stay the same. |
| `QueueProperties.StatsNextTicketIsHeadOfWaitingList` | server/src/services/queue.service.ts:229-241 | `nextTicket` is absent on an empty waiting list. Otherwise it is the head's ticket code, when that code is not empty. |
| `Ticket.TicketCode` | server/src/services/queue.service.ts:55 | The code is `A` followed by the number's digits, zero-padded to at least three. |
| `Ticket.TicketRoundTrip` | server/src/services/queue.service.ts:55 | The number can be read back from its ticket code. |
| `Ticket.TicketCodeInjective` | server/src/services/queue.service.ts:55 | Distinct numbers give distinct codes. |
| `Ticket.TicketCodeFitsColumn` | server/src/db/schemas/turns.ts:24 | The code fits the ten-character column iff the number is below 10^9. |
| `Ticket.TicketCodeExamples` | server/src/services/queue.service.ts:55 | 1, 42 and 1000 give `A001`, `A042` and `A1000`. |
| `Ticket.PadStart` | server/src/services/queue.service.ts:55 | `padStart`: the result has length max(\|s\|, width), ends with s, and is filled in front. |
| `Ticket.NatToString` | server/src/services/queue.service.ts:55 | `toString` of a number: a non-empty string of digits with no leading zero. |
| `Ticket.DecimalRoundTrip` | server/src/services/queue.service.ts:55 | Reading the decimal digits back gives the number. |
| `Ticket.DigitCount` | server/src/db/schemas/turns.ts:24 | For k ≥ 1, a number has at most k digits iff it is below 10^k. |
| `Sorting.SortBy` | server/src/services/queue.service.ts:175 | `orderBy(asc(...))`: the result is sorted by the key and is a permutation of the input. |
| `Sorting.SortHeadIsMin` | server/src/services/queue.service.ts:111-112 | The head of the sorted list is the first element with the least key, as `limit(1)` after the same ordering picks it. |
| `Sorting.MinBy` | server/src/services/queue.service.ts:111-112 | Returns an element of the list with the least key, and the first such element. |
| `DisplayBoard.AvailableModules` | client/src/pages/QueueDisplayBoard.tsx:38 | Exactly the active modules, in module-list order. |
| `DisplayBoard.BusyModuleIds` | client/src/pages/QueueDisplayBoard.tsx:39 | An id is busy iff some served turn references it; missing module ids are dropped. |
| `DisplayBoard.AvailableModuleIds` | client/src/pages/QueueDisplayBoard.tsx:40-42 | No listed id is busy, and there are at most as many ids as modules. |
| `DisplayBoard.FreeModulesInListOrder` | client/src/pages/QueueDisplayBoard.tsx:37-42 | The free modules are the module list filtered by "active and serving no one", so they keep module-list order. The available ids are theirs, position by position, which fixes the module each upcoming turn is predicted to go to. |
| `DisplayBoard.AvailableIdSound` | client/src/pages/QueueDisplayBoard.tsx:37-42 | Every available id belongs to an active module and no served turn references it. |
| `DisplayBoard.AvailableIdComplete` | client/src/pages/QueueDisplayBoard.tsx:37-42 | Every active module that no served turn references has its id available. |
| `DisplayBoard.NextTurnsWithModules` | client/src/pages/QueueDisplayBoard.tsx:36-61 | min(3, \|waiting\|) entries, carrying the first waiting turns in order, unchanged. |
| `DisplayBoard.FirstBranchAgrees` | client/src/pages/QueueDisplayBoard.tsx:46-54 | The special branch for index 0 agrees with the positional rule. |
| `DisplayBoard.PredictionByPosition` | client/src/pages/QueueDisplayBoard.tsx:43-59 | Entry i has a prediction iff i < \|available ids\|. The prediction then is an active module of the list with the i-th available id, serving no turn. |
| `DisplayBoard.NoFreeModuleNoPrediction` | client/src/pages/QueueDisplayBoard.tsx:37-54 | With no active free module, no entry has a prediction. |
| `DisplayBoard.FilterKeepsUniqueIds` | client/src/pages/QueueDisplayBoard.tsx:38-42 | Filtering a module list with unique ids keeps them unique. |
| `DisplayBoard.PredictionsDistinct` | client/src/pages/QueueDisplayBoard.tsx:37-54 | With unique module ids, two entries never predict the same module. |
| `ModuleDashboard.GetModuleStatus` | client/src/pages/ModuleDashboard.tsx:50-53 | Nothing iff no served turn references the module. Otherwise the first served turn that does. |
| `ModuleDashboard.GetNextInQueue` | client/src/pages/ModuleDashboard.tsx:55-57 | Nothing iff the waiting list is empty. Otherwise its first turn. |
| `ModuleDashboard.Card` | client/src/pages/ModuleDashboard.tsx:108-188 | The card shows the turn `getModuleStatus` finds for the module, the one its Complete button finishes. Available iff no served turn references the module. Call-next iff available and someone waits. `callDisabled`, the call-next button's `disabled` expression at line 188, holds iff call-next is not possible or the store is loading, that is iff the module serves someone, no one waits, or the store is loading. |
| `ModuleDashboard.Cards` | client/src/pages/ModuleDashboard.tsx:108-113 | One card per module, in module-list order. |
| `ModuleDashboard.AvailableIffServerNotBusy` | client/src/pages/ModuleDashboard.tsx:111-112 | On the server's served list, the dashboard shows a module available iff the server's busy check fails. |
| `ModuleDashboard.CanCallNextIffServerAssigns` | client/src/pages/ModuleDashboard.tsx:113 | For an existing module, call-next is enabled iff the server's call-next would succeed. The turn it serves is the dashboard's next turn. |
| `ModuleDashboard.CallNextReply` | server/src/controllers/queue.controller.ts:62-94 | The handler replies with success iff the call-next succeeded, carrying the served turn. Any error is sent with an error status. |
| `ModuleDashboard.CallNextReturnsHeadOfQueue` | client/src/stores/useQueueStore.tsx:112-141 | Through the handler's reply, when the store's refreshes get a response, `callNext` resolves to a turn iff the server's call-next succeeds, and to exactly the served turn. When a refresh gets no response, a served turn makes `callNext` reject. The served turn is the head of the waiting list, now served at the module. |
| `ModuleDashboard.InactiveModuleShownFreeButNeverPredicted` | client/src/pages/ModuleDashboard.tsx:111-112 | An inactive module that serves no one is shown available, yet the board never predicts it. |
| `ProtectedRoute.DefaultRouteForRole` | client/src/components/ProtectedRoute.tsx:12-23 | admin, agent and receptionist go to `/selection`, `/modules` and `/reception`, each iff that role. |
| `ProtectedRoute.Guard` | client/src/components/ProtectedRoute.tsx:25-48 | Loading shows only the placeholder. No user goes to `/`. An admin is always admitted. Another role is admitted iff listed, and otherwise goes to its default route. |
| `AppRoutes.DashboardTab` | client/src/App.tsx:76-83 | `/dashboard/:tab` matches iff the path is the prefix plus one non-empty segment without `/`, which is then the tab. |
| `AppRoutes.Route` | client/src/App.tsx:45-103 | Redirects go only to `/selection`, for a logged-in visitor at `/`, or to `/404`, which catches every unmatched path. `/queue`, `/404` and, when logged out, `/` render a page. `/selection`, `/dashboard`, `/dashboard/:tab`, `/modules` and `/reception` are guarded for one role each. Each shows that role's home page, or the admin's dashboard carrying the path's tab. |
| `AppRoutes.DefaultRouteAdmits` | client/src/App.tsx:59-103 | Each role's default route is guarded and admits that role, and shows its home page: no redirect loop. |
| `AppRoutes.EveryVisitSettles` | client/src/App.tsx:45-103 | For any session and path, a visit settles on a page or the loading placeholder within two redirects. |
| `AppRoutes.RejectedRoleLandsHome` | client/src/components/ProtectedRoute.tsx:42-45 | A logged-in member rejected by a guarded route lands, in one redirect, on their home page. |
| `AppRoutes.AnonymousVisitorSeesPublicPages` | client/src/App.tsx:45-103 | A visitor who is not logged in only ever sees the log-in page, the queue board or the not-found page. |
| `DashboardTabs.ActiveTab` | client/src/pages/Dashboard.tsx:12 | The tab parameter when present and non-empty, otherwise `personal`; the active tab is never empty. |
| `DashboardTabs.HandleTabChange` | client/src/pages/Dashboard.tsx:22-28 | `personal` navigates to `/dashboard`, any other id to `/dashboard/<id>`. |
| `DashboardTabs.GetVariant` | client/src/pages/Dashboard.tsx:20 | A button gets the default variant iff its key is the active tab. |
| `DashboardTabs.RenderContent` | client/src/pages/Dashboard.tsx:30-41 | The user section iff the tab is `usuarios`; every other tab, known or not, shows the staff section. |
| `DashboardTabs.TabRoundTrip` | client/src/pages/Dashboard.tsx:22-28 | For a non-empty id without `/`, the path chosen routes to the dashboard, whose active tab is that id. |
| `DashboardTabs.AdminSeesChosenTab` | client/src/App.tsx:68-83 | An admin who picks a tab sees the dashboard with that tab active, with no redirect. |
| `DashboardTabs.OneHighlightedTab` | client/src/pages/Dashboard.tsx:14-20 | A button is highlighted iff it is the active tab, so no two buttons are. Some button is highlighted iff the tab is one of the three sections. |
| `Reception.FilteredUsers` | client/src/pages/ReceptionInterface.tsx:87-91 | Keeps the customers that match, and only those. |
| `Reception.KeptIffOccurs` | client/src/pages/ReceptionInterface.tsx:87-91 | A customer is kept iff the lower-cased term occurs in the lower-cased name, or the term occurs in the national id. |
| `Reception.FilteredUsersIsSubsequence` | client/src/pages/ReceptionInterface.tsx:87-91 | The result is a subsequence of the list, so order is kept. |
| `Reception.EmptyTermKeepsAll` | client/src/pages/ReceptionInterface.tsx:87-91 | An empty term keeps every customer. |
| `Reception.SearchFindsCustomer` | client/src/pages/ReceptionInterface.tsx:87-91 | Typing the name in any letter case (for ASCII and Latin-1 letters, the letters `Text.ToLower` lowers), or the national id exactly, finds the customer. |
| `Reception.QueuePanelView` | client/src/pages/ReceptionInterface.tsx:238-285 | An empty queue shows the empty message. Otherwise the first min(10, n) turns are shown in order, and only the first is marked next. The overflow line appears iff n > 10, and shown rows plus overflow equal n. |
| `Reception.PreviewHeadIsNext` | client/src/pages/ReceptionInterface.tsx:244-263 | The head of the waiting list is the row marked next. |
| `Reception.CustomerFormErrors` | client/src/pages/ReceptionInterface.tsx:17-20 | The new-customer form is valid iff the name has at least 3 characters and the national id at least 5. |
| `Reception.TurnFormErrors` | client/src/pages/ReceptionInterface.tsx:22-24 | The new-turn form is valid iff the national id has at least 5 characters. |
| `Reception.RegisteredIdPassesTurnForm` | client/src/pages/ReceptionInterface.tsx:17-24 | Every national id the customer form accepts, the turn form accepts. |
| `EditForms.SubmitEditUser` | client/src/components/dasboard/Users/EditUser.tsx:52-73 | Submitting does one of three things. Invalid input is rejected. A changed national id that another customer (different id) holds blocks the submit. Otherwise `updates.name` and `updates.nationalId` are each present iff non-empty and changed, with the form's value. |
| `EditForms.UnchangedUserSendsNothing` | client/src/components/dasboard/Users/EditUser.tsx:65-71 | Resubmitting the current values sends an empty update. |
| `EditForms.ShortReceptionValuesRejected` | client/src/components/dasboard/Users/EditUser.tsx:25-37 | A customer with a 3-character name, or a national id of 5 to 7 characters, cannot be resubmitted unchanged. Reception accepts such values; this form rejects them. |
| `EditForms.SubmitEditModule` | client/src/components/dasboard/Modules/EditModule.tsx:25-75 | Submitting does one of three things. Invalid input is rejected, including a description left at the `null` of a module without one. A changed name that another module (different id) holds blocks the submit. Otherwise `updates.name` and `updates.description` are each present iff non-empty and changed, with the form's value. |
| `EditForms.UnchangedModuleSendsNothing` | client/src/components/dasboard/Modules/EditModule.tsx:67-73 | Resubmitting the valid current values of a module, which then has a description, sends an empty update. `ModuleService.Edit` refuses it without change. |
| `EditForms.NullDescriptionBlocksEdit` | client/src/components/dasboard/Modules/EditModule.tsx:32-49 | For a module without a description, the untouched form is rejected whatever the name, since an optional field admits no `null`. |
| `EditForms.SentModuleNameApplied` | client/src/components/dasboard/Modules/EditModule.tsx:69 | A sent edit with a non-blank name, applied by `ModuleService.Edit`, gives the module the form's name. An empty name field keeps the old name. A name of spaces is sent but ignored by the service as blank, which this lemma leaves out. |
| `ModuleService.Exists` | server/src/services/module.service.ts:16-24 | Nothing iff no module has exactly that name. Otherwise a module of the table with that name. |
| `ModuleService.Create` | server/src/services/module.service.ts:26-30 | Succeeds iff the name and description fit their columns and the id is new. It then appends an active module with no agent, carrying the given name and description. Failures change nothing. |
| `ModuleService.Edit` | server/src/services/module.service.ts:32-56 | An all-blank update is refused and changes nothing. Only rows with the id change. On them the name and the description are each replaced iff provided and non-blank, and every other field is kept. Returns nothing iff no module has the id. |
| `ModuleService.Delete` | server/src/services/module.service.ts:58-62 | Removes exactly the modules with the id, keeping the rest in order. The turns referencing the module are removed by the cascade. Returns nothing iff no module had the id. |
| `ModuleService.BlankUpdateChangesNothing` | server/src/services/module.service.ts:39-53 | An update whose fields are absent or blank leaves the database unchanged. |
| `ModuleService.CreatedModuleExists` | server/src/services/module.service.ts:16-30 | After a successful create, `exists` finds a module under the new name. |
| `ModuleService.CreateThenDeleteRestores` | server/src/services/module.service.ts:26-62 | Deleting a module just created, which no turn references, restores the database. |
| `ModuleService.DeleteIdempotent` | server/src/services/module.service.ts:58-62 | Deleting twice equals deleting once. |
| `PersonalService.FindForAuth` | server/src/services/personal.service.ts:7-18 | Nothing iff no staff member has exactly that e-mail. Otherwise the id and stored hash of one who has it. |
| `PersonalService.Exists` | server/src/services/personal.service.ts:36-46 | Nothing iff no staff member has exactly that e-mail. Otherwise that e-mail. |
| `PersonalService.Create` | server/src/services/personal.service.ts:48-63 | Succeeds iff name, e-mail and hash fit their columns, the id is new and the e-mail is unused. It then appends the member, whose stored password is `hash(password, salt)`. Failures change nothing. |
| `PersonalService.Edit` | server/src/services/personal.service.ts:65-101 | Nothing selected is refused. Only the member with the id changes: name, e-mail and role are each replaced iff provided (and non-blank for text), and the password becomes `hash(password, salt)` iff a non-blank one is given. The edit is refused as taken only when another member holds the new e-mail. Returns nothing iff no member has the id. |
| `PersonalService.EditNeverTakesEmail` | server/src/db/schemas/personal.ts:13 | Editing an existing member to an e-mail another member holds is refused, so the unique e-mail column is never violated. |
| `PersonalService.Delete` | server/src/services/personal.service.ts:103-107 | Fails iff the member exists and some turn records them in `completedBy` (a reference without cascade), changing nothing. Otherwise it removes exactly the members with the id. |
| `PersonalService.CreatedStaffFoundForAuth` | server/src/services/personal.service.ts:7-63 | After a successful create, `findForAuth` on the new e-mail yields the new id and the password's hash. |
| `PersonalService.CreateKeepsEmailsUnique` | server/src/db/schemas/personal.ts:13 | Creation keeps e-mails unique. |
| `PersonalService.EditedPasswordFoundForAuth` | server/src/services/personal.service.ts:88-92 | After a password edit, with unique ids and e-mails, `findForAuth` on the member's e-mail yields the new hash. |
| `PersonalService.DeletedStaffNotFound` | server/src/services/personal.service.ts:103-107 | With unique e-mails, a deleted member is no longer found for log-in. |
| `ListStores.StoreCreate` | client/src/stores/useQueueStore.tsx:189-209 | On success the returned entry is appended and earlier entries are kept; on failure the list is unchanged. Loading ends false. The same holds for `createUser` in useUserStore.tsx:37-54 and usePersonalStore.tsx:41-64. |
| `ListStores.StoreEdit` | client/src/stores/useQueueStore.tsx:211-231 | On success the entries with the id become the returned entry. The length and the other entries are unchanged, and a failure changes nothing. Loading ends false. Also useUserStore.tsx:56-74 and usePersonalStore.tsx:66-84. |
| `ListStores.StoreDelete` | client/src/stores/useQueueStore.tsx:233-249 | On success the entries with the id are dropped and every other entry is kept in order; a failure changes nothing. Loading ends false. Also useUserStore.tsx:76-92 and usePersonalStore.tsx:86-102. |
| `ListStores.CreateThenDeleteRestores` | client/src/stores/useUserStore.tsx:37-92 | Deleting an entry just created under a new id restores the list. |
| `ListStores.EditThenDelete` | client/src/stores/usePersonalStore.tsx:66-102 | Deleting after an edit of the same id equals deleting. |
| `ListStores.EditThenDeleteItems` | client/src/stores/usePersonalStore.tsx:71-95 | On the list itself: dropping an id after replacing its entries equals dropping it. |
| `ListStores.CallNext` | client/src/stores/useQueueStore.tsx:65-141 | Resolves to a turn iff the server replied with success and a turn and the waiting and statistics refreshes got a response, and then to that turn. Any other reply or an error status resolves to `null`. It rejects iff there was no response at all, or a success with a turn was followed by a refresh with no response: each time an error handler itself fails reading the missing response. Loading ends false. |
| `Text.ToLower` | client/src/pages/ReceptionInterface.tsx:89 | Lower-cases each character: letters A–Z and the Latin-1 upper-case letters move up by 32, everything else is kept. |
| `Text.Contains` | client/src/pages/ReceptionInterface.tsx:89-90 | `includes` holds iff the substring occurs at some position. |
| `Seqs.Find` | client/src/pages/ModuleDashboard.tsx:51 | `find`: nothing iff no element matches. Otherwise a matching element of the list. |
| `Seqs.FindFirstMatch` | client/src/pages/ModuleDashboard.tsx:51 | `find` returns the element at the first matching index. |
| `Seqs.Filter` | client/src/pages/ReceptionInterface.tsx:87 | `filter`: every kept element matches and is from the list, and every matching element is kept. |
| `Seqs.FilterIsSubsequence` | client/src/stores/useQueueStore.tsx:241 | `filter` keeps order: the result is a subsequence. |
| `Seqs.FilterFilter` | server/src/services/queue.service.ts:220-234 | Filtering by one condition and then another is filtering by both. |
| `Seqs.FilterPermutationLength` | server/src/services/queue.service.ts:169-181 | Two orderings of the same elements have equally many elements satisfying a condition. |
| `Seqs.FilterLengthCountsIndices` | server/src/services/queue.service.ts:220-234 | The length of a filter is the number of positions whose element satisfies the condition. |
| `Seqs.MapWhere` | client/src/stores/useQueueStore.tsx:221-223 | `map(x => p(x) ? f(x) : x)`: same length, matching elements replaced, the rest kept. |

## Left out

- Database access is replaced by the in-memory `Db`: the drizzle queries, SQL joins and `count(*)`.
  `getTurnWithUser` returns the row itself, without the joined customer and module.
- Concurrency: the counter read-increment-write and the check-then-act in call-next are racy and
  non-transactional. They are modelled strictly sequentially, and nothing is claimed about atomicity.
- Clock and dates: "today" and timestamps are parameters. The UTC date from `toISOString` and all
  locale formatting are not modelled.
- New row ids (`gen_random_uuid()`) are parameters. The insert refuses an id already in use.
- bcrypt: the hash is a function parameter and the salt an argument; salt generation is a foreign call.
- Nullable columns: a turn's `status`, `createdAt` and `serviceDate`, and a module's `isActive`,
  are modelled as always present, since every row the code writes has them.
- PostgreSQL leaves the order of rows with equal sort keys unspecified. The model breaks ties by
  table order: a stable sort, and the first minimum for `limit(1)`.
- Counts come back from PostgreSQL as `bigint`, which the driver delivers as strings. The
  statistics are modelled as numbers.
- Edits with nothing to set: the ORM cannot build an `UPDATE` without columns, so the model treats
  them as refused with nothing changed. Length errors on an edit are raised only when some row
  has the id.
- `Text.ToLower`: models `toLowerCase` for ASCII and Latin-1 letters only, so
  `Reception.SearchFindsCustomer` promises a case-insensitive match only for those letters.
  Lengths count code points, not UTF-16 code units.
- Routes are matched exactly, as written in the table. React Router's case-insensitive matching,
  trailing-slash tolerance and URL decoding are not modelled.
- `isAuth` is taken to be "a user is logged in". The app-level `checkingAuth` spinner is not
  modelled.
- Express controllers, routes and HTTP plumbing are not modelled, except the call-next reply
  (`ModuleDashboard.CallNextReply`). That handler's `turn: null` branch is unreachable, because
  call-next throws on an empty queue.
- `getAll`, `findById` and `findAll` are plain table reads. `takeModule`, `leaveModule` and the
  customer service's create, edit and delete are not part of this model.
- The module routes import `editModule` and `deleteModule` from queue.controller.ts, which does not
  define them. Its `getModules` and `createModule` call `queueService.getAllModules` and
  `queueService.createModule`, which queue.service.ts does not define (module.route.ts:2-14,
  queue.controller.ts:140,157). Linking the module store and the edit form to `ModuleService.Edit`
  and `ModuleService.Delete` is therefore the evident intent, not code that can be followed.
- React rendering, polling intervals, toasts, sounds and modals are not modelled.
- `ListStores.StoreCreate`: takes the reply's payload to be present. A reply that reports success
  without the field the store reads would put `undefined` in the list. For modules this is what
  the code does: the `/module/create` handler calls `queueService.createModule`, which
  queue.service.ts does not define, and replies under `module` (queue.controller.ts:157-161). The
  store reads `res.data.newModule` (useQueueStore.tsx:201), so the key never matches.
- `ListStores.CallNext`: the `@/api/axios` client is not part of this model. An interceptor there
  could change the error a failed request carries. The refreshes after a served turn are reduced to
  whether the waiting and statistics requests got a response; the lists they write are not
  modelled there. The other store actions also reject on a failure without a response; the model
  records only that their lists stay unchanged and loading ends false.
- Request bodies are untyped on the server. A role that is not one of the three enum values, or a
  non-string field, is not modelled.
- Ids are modelled as well-formed uuids (`Schema.Uuid`). An id string that is not a uuid, from a
  URL parameter or a request body, makes PostgreSQL throw an invalid-syntax error in
  `cancelTurn`, `completeTurn`, the `assignToModule` busy query, and the module and staff edit and
  delete. That error path is not modelled.
- `Reception.FilteredUsers`: its contract states membership. The "iff" characterisation is proved
  by `Reception.KeptIffOccurs` instead, to keep the function's proof small.
- `DisplayBoard.AvailableModuleIds`: its contract states only the bound and that no id is busy.
  Soundness and completeness are proved by `DisplayBoard.AvailableIdSound` and
  `DisplayBoard.AvailableIdComplete`, and module-list order by `DisplayBoard.FreeModulesInListOrder`.
