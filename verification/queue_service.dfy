/** The turn and queue engine: daily ticket numbering, turn creation, cancellation, FIFO
    call-next to a module, completion, the waiting and served listings, and the daily
    statistics. "Today" and "now" are parameters; the `id` a new row receives from
    `gen_random_uuid()` is a parameter too. */
module QueueService {
  import opened Wrappers
  import opened Schema
  import opened Seqs
  import Sorting
  import Ticket

  /** The errors the service throws, including the constraint violations of its writes. */
  datatype QueueError =
    | UserNotFound            // no customer has the national id
    | CounterOutOfRange       // the new ticket number overflows the `integer` counter column
    | TicketCodeTooLong       // the ticket code exceeds `varchar(10)`
    | DuplicateTurnId         // primary key of `turns`
    | DuplicateTicketCode     // `unique` on `turns.ticket_code`
    | UnknownUser             // foreign key `turns.user_id`
    | TurnNotFound
    | CannotCancelCompleted
    | AlreadyCancelled
    | NoOneWaiting
    | ModuleBusy
    | UnknownModule           // foreign key `turns.module_id`

  // ---------------------------------------------------------------------------------------
  // Row predicates and keys

  function HasNationalId(nationalId: string): Customer -> bool
  {
    (c: Customer) => c.nationalId == nationalId
  }

  function HasTurnId(id: Uuid): Turn -> bool
  {
    (t: Turn) => t.id == id
  }

  function HasStatus(s: Status): Turn -> bool
  {
    (t: Turn) => t.status == s
  }

  function ServingAt(moduleId: Uuid): Turn -> bool
  {
    (t: Turn) => t.moduleId == Some(moduleId) && t.status == BeingServed
  }

  function OnDate(today: Date): Turn -> bool
  {
    (t: Turn) => t.serviceDate == today
  }

  function OnDateWithStatus(today: Date, s: Status): Turn -> bool
  {
    (t: Turn) => t.serviceDate == today && t.status == s
  }

  /** Sort key of `orderBy(asc(turns.createdAt))`. */
  function CreatedKey(t: Turn): int
  {
    t.createdAt
  }

  /** Sort key of `orderBy(asc(turns.moduleId))`: uuid order, a missing module last. */
  function ServedKey(t: Turn): int
  {
    match t.moduleId
    case Some(m) => m
    case None => UuidBound
  }

  predicate CustomerExists(customers: seq<Customer>, id: Uuid)
  {
    exists i :: 0 <= i < |customers| && customers[i].id == id
  }

  predicate ModuleExists(modules: seq<Module>, id: Uuid)
  {
    exists i :: 0 <= i < |modules| && modules[i].id == id
  }

  predicate TurnIdUsed(turns: seq<Turn>, id: Uuid)
  {
    exists i :: 0 <= i < |turns| && turns[i].id == id
  }

  predicate TicketCodeUsed(turns: seq<Turn>, code: string)
  {
    exists i :: 0 <= i < |turns| && turns[i].ticketCode == code
  }

  // ---------------------------------------------------------------------------------------
  // Ticket numbering and turn creation

  /** The day's counter as the read sees it; a day without a counter row reads as 0
      (the row is created at 0 before the increment). */
  function CounterFor(counters: map<Date, nat>, today: Date): nat
  {
    if today in counters then counters[today] else 0
  }

  /** The row `createTurnForUser` inserts: waiting, no module, no timestamps besides creation. */
  function NewTurn(id: Uuid, userId: Uuid, userName: string, userNationalId: string,
                   ticketCode: string, today: Date, now: Timestamp): Turn
  {
    Turn(id, Some(userId), userName, userNationalId, None, ticketCode, Waiting,
         now, None, None, None, today)
  }

  /** The constraint checks of an insert into `turns`. */
  predicate Insertable(db: Db, t: Turn)
  {
    && FitsVarchar(t.ticketCode, TicketCodeLimit)
    && !TurnIdUsed(db.turns, t.id)
    && !TicketCodeUsed(db.turns, t.ticketCode)
    && (t.userId.Some? ==> CustomerExists(db.customers, t.userId.value))
  }

  /** An insert into `turns`: the row is appended, or the statement fails on the first
      constraint it violates and nothing is written. */
  function InsertTurn(db: Db, t: Turn): (s: Step<Turn, QueueError>)
    ensures s.result.Ok? <==> Insertable(db, t)
    ensures s.result.Ok? ==> s.db == db.(turns := db.turns + [t]) && s.result.value == t
    ensures s.result.Err? ==> s.db == db
  {
    if !FitsVarchar(t.ticketCode, TicketCodeLimit) then Step(db, Err(TicketCodeTooLong))
    else if TurnIdUsed(db.turns, t.id) then Step(db, Err(DuplicateTurnId))
    else if TicketCodeUsed(db.turns, t.ticketCode) then Step(db, Err(DuplicateTicketCode))
    else if t.userId.Some? && !CustomerExists(db.customers, t.userId.value) then Step(db, Err(UnknownUser))
    else Step(db.(turns := db.turns + [t]), Ok(t))
  }

  /** `createTurnForUser`: read today's counter (creating it at 0), write back counter + 1,
      then insert a waiting turn whose ticket code encodes that number. The counter write
      happens before the insert, so a failed insert still consumes the number. */
  function CreateTurnForUser(db: Db, userId: Uuid, userName: string, userNationalId: string,
                             today: Date, now: Timestamp, newId: Uuid): (s: Step<Turn, QueueError>)
    ensures s.db.customers == db.customers && s.db.staff == db.staff && s.db.modules == db.modules
    ensures CounterFor(db.counters, today) + 1 <= Int32Max
            ==> s.db.counters == db.counters[today := CounterFor(db.counters, today) + 1]
    ensures CounterFor(db.counters, today) + 1 > Int32Max
            ==> s.result == Err(CounterOutOfRange) && s.db.turns == db.turns
    ensures forall d :: d != today ==> (d in s.db.counters <==> d in db.counters)
    ensures forall d :: d != today && d in db.counters ==> s.db.counters[d] == db.counters[d]
    ensures s.result.Err? ==> s.db.turns == db.turns
    ensures s.result.Ok? ==>
              && s.db.turns == db.turns + [s.result.value]
              && s.result.value == NewTurn(newId, userId, userName, userNationalId,
                                           Ticket.TicketCode(CounterFor(db.counters, today) + 1), today, now)
  {
    var next := CounterFor(db.counters, today) + 1;
    if next > Int32Max then
      // only reachable when today's counter row already exists
      Step(db, Err(CounterOutOfRange))
    else
      var counted := db.(counters := db.counters[today := next]);
      InsertTurn(counted, NewTurn(newId, userId, userName, userNationalId, Ticket.TicketCode(next), today, now))
  }

  /** `createTurn`: look the customer up by national id, then create a turn for them. No
      check is made that the customer already holds a waiting or served turn. */
  function CreateTurn(db: Db, nationalId: string, today: Date, now: Timestamp, newId: Uuid): (s: Step<Turn, QueueError>)
    ensures s.result == Err(UserNotFound) <==> forall i :: 0 <= i < |db.customers| ==> db.customers[i].nationalId != nationalId
    ensures s.result == Err(UserNotFound) ==> s.db == db
    ensures s.result.Ok? ==>
              exists i :: 0 <= i < |db.customers| && db.customers[i].nationalId == nationalId
                          && s.result.value.userId == Some(db.customers[i].id)
                          && s.result.value.userName == db.customers[i].name
                          && s.result.value.userNationalId == nationalId
    ensures s.result != Err(UserNotFound) ==>
              exists i :: 0 <= i < |db.customers| && db.customers[i].nationalId == nationalId
                          && s == CreateTurnForUser(db, db.customers[i].id, db.customers[i].name, nationalId, today, now, newId)
  {
    match Find(db.customers, HasNationalId(nationalId))
    case None => Step(db, Err(UserNotFound))
    case Some(c) => CreateTurnForUser(db, c.id, c.name, c.nationalId, today, now, newId)
  }

  // ---------------------------------------------------------------------------------------
  // Cancellation

  /** The turn stamped as cancelled at `now` (the completion timestamp doubles as the
      cancellation time). */
  function MarkCancelled(now: Timestamp): Turn -> Turn
  {
    (t: Turn) => t.(status := Cancelled, completedAt := Some(now))
  }

  /** `cancelTurn`: rejected for an unknown id, a completed turn or a cancelled one; otherwise
      the turn becomes cancelled. Waiting and served turns can both be cancelled. */
  function CancelTurn(db: Db, turnId: Uuid, now: Timestamp): (s: Step<Turn, QueueError>)
    ensures s.db.customers == db.customers && s.db.staff == db.staff
    ensures s.db.modules == db.modules && s.db.counters == db.counters
    ensures s.result == Err(TurnNotFound) <==> !TurnIdUsed(db.turns, turnId)
    ensures s.result.Err? ==> s.db == db
    ensures s.result.Ok? ==>
              && |s.db.turns| == |db.turns|
              && s.result.value.id == turnId && s.result.value.status == Cancelled
              && s.result.value.completedAt == Some(now)
              && (forall i :: 0 <= i < |db.turns| && db.turns[i].id != turnId ==> s.db.turns[i] == db.turns[i])
              && (forall i :: 0 <= i < |db.turns| && db.turns[i].id == turnId ==>
                    s.db.turns[i] == db.turns[i].(status := Cancelled, completedAt := Some(now)))
  {
    match Find(db.turns, HasTurnId(turnId))
    case None => Step(db, Err(TurnNotFound))
    case Some(t) =>
      if t.status == Completed then Step(db, Err(CannotCancelCompleted))
      else if t.status == Cancelled then Step(db, Err(AlreadyCancelled))
      else Step(db.(turns := MapWhere(db.turns, HasTurnId(turnId), MarkCancelled(now))), Ok(MarkCancelled(now)(t)))
  }

  /** The outcome of `cancelTurn` is decided by the status of the row with that id: a completed
      or cancelled turn is refused, a waiting or served one is cancelled. */
  lemma CancelOutcome(db: Db, turnId: Uuid, now: Timestamp, i: nat)
    requires i < |db.turns| && db.turns[i].id == turnId
    requires forall j :: 0 <= j < i ==> db.turns[j].id != turnId
    ensures db.turns[i].status == Completed ==> CancelTurn(db, turnId, now).result == Err(CannotCancelCompleted)
    ensures db.turns[i].status == Cancelled ==> CancelTurn(db, turnId, now).result == Err(AlreadyCancelled)
    ensures db.turns[i].status == Waiting || db.turns[i].status == BeingServed
            ==> CancelTurn(db, turnId, now).result == Ok(MarkCancelled(now)(db.turns[i]))
  {
    FindFirstMatch(db.turns, HasTurnId(turnId));
    assert Find(db.turns, HasTurnId(turnId)) == Some(db.turns[i]);
  }

  // ---------------------------------------------------------------------------------------
  // Listings

  /** `getNextInQueue`: the waiting turn created first (the earliest in table order among
      equal creation times), or nothing when no turn is waiting. */
  function GetNextInQueue(turns: seq<Turn>): (r: Option<Turn>)
    ensures r.None? <==> forall i :: 0 <= i < |turns| ==> turns[i].status != Waiting
    ensures r.Some? ==> r.value in turns && r.value.status == Waiting
    ensures r.Some? ==> forall i :: 0 <= i < |turns| && turns[i].status == Waiting
                                    ==> r.value.createdAt <= turns[i].createdAt
  {
    var waiting := Filter(turns, HasStatus(Waiting));
    if |waiting| == 0 then None
    else
      var m := Sorting.MinBy(waiting, CreatedKey);
      assert forall i :: 0 <= i < |turns| && turns[i].status == Waiting ==> m.createdAt <= turns[i].createdAt by {
        forall i | 0 <= i < |turns| && turns[i].status == Waiting ensures m.createdAt <= turns[i].createdAt {
          assert HasStatus(Waiting)(turns[i]);
          var k :| 0 <= k < |waiting| && waiting[k] == turns[i];
        }
      }
      Some(m)
  }

  /** `getWaitingTurns`: exactly the waiting turns, in ascending creation time. */
  function GetWaitingTurns(turns: seq<Turn>): (r: seq<Turn>)
    ensures Sorting.SortedBy(r, CreatedKey)
    ensures multiset(r) == multiset(Filter(turns, HasStatus(Waiting)))
    ensures forall i :: 0 <= i < |r| ==> r[i] in turns && r[i].status == Waiting
    ensures forall i :: 0 <= i < |turns| && turns[i].status == Waiting ==> turns[i] in r
  {
    var waiting := Filter(turns, HasStatus(Waiting));
    Sorting.SortBySameElements(waiting, CreatedKey);
    Sorting.SortBy(waiting, CreatedKey)
  }

  /** `getCurrentlyServed`: exactly the turns being served, ordered by module id (uuid order),
      any without a module last. */
  function GetCurrentlyServed(turns: seq<Turn>): (r: seq<Turn>)
    ensures Sorting.SortedBy(r, ServedKey)
    ensures multiset(r) == multiset(Filter(turns, HasStatus(BeingServed)))
    ensures forall i :: 0 <= i < |r| ==> r[i] in turns && r[i].status == BeingServed
    ensures forall i :: 0 <= i < |turns| && turns[i].status == BeingServed ==> turns[i] in r
  {
    var serving := Filter(turns, HasStatus(BeingServed));
    Sorting.SortBySameElements(serving, ServedKey);
    Sorting.SortBy(serving, ServedKey)
  }

  // ---------------------------------------------------------------------------------------
  // Call-next and completion

  /** A module is busy when some turn is being served at it. */
  predicate IsModuleBusy(turns: seq<Turn>, moduleId: Uuid)
  {
    Find(turns, ServingAt(moduleId)).Some?
  }

  /** The turn stamped as called to `moduleId` at `now`. */
  function MarkCalled(moduleId: Uuid, now: Timestamp): Turn -> Turn
  {
    (t: Turn) => t.(moduleId := Some(moduleId), status := BeingServed, calledAt := Some(now))
  }

  /** `assignToModule`: take the next waiting turn; fail when there is none or when the module
      already serves a turn; otherwise that turn is called to the module. */
  function AssignToModule(db: Db, moduleId: Uuid, now: Timestamp): (s: Step<Turn, QueueError>)
    ensures s.db.customers == db.customers && s.db.staff == db.staff
    ensures s.db.modules == db.modules && s.db.counters == db.counters
    ensures s.result.Err? ==> s.db == db
    ensures s.result == Err(NoOneWaiting) <==> forall i :: 0 <= i < |db.turns| ==> db.turns[i].status != Waiting
    ensures GetNextInQueue(db.turns).Some? && IsModuleBusy(db.turns, moduleId) ==> s.result == Err(ModuleBusy)
    ensures s.result.Ok? <==>
              GetNextInQueue(db.turns).Some? && !IsModuleBusy(db.turns, moduleId) && ModuleExists(db.modules, moduleId)
    ensures s.result.Ok? ==>
              var next := GetNextInQueue(db.turns).value;
              && s.result.value == next.(moduleId := Some(moduleId), status := BeingServed, calledAt := Some(now))
              && |s.db.turns| == |db.turns|
              && (forall i :: 0 <= i < |db.turns| && db.turns[i].id != next.id ==> s.db.turns[i] == db.turns[i])
              && (forall i :: 0 <= i < |db.turns| && db.turns[i].id == next.id ==>
                    s.db.turns[i] == db.turns[i].(moduleId := Some(moduleId), status := BeingServed, calledAt := Some(now)))
  {
    match GetNextInQueue(db.turns)
    case None => Step(db, Err(NoOneWaiting))
    case Some(next) =>
      if IsModuleBusy(db.turns, moduleId) then Step(db, Err(ModuleBusy))
      else if !ModuleExists(db.modules, moduleId) then Step(db, Err(UnknownModule))
      else Step(db.(turns := MapWhere(db.turns, HasTurnId(next.id), MarkCalled(moduleId, now))),
                Ok(MarkCalled(moduleId, now)(next)))
  }

  /** The turn stamped as completed at `now`. */
  function MarkCompleted(now: Timestamp): Turn -> Turn
  {
    (t: Turn) => t.(status := Completed, completedAt := Some(now))
  }

  /** `completeTurn`: every row with the id becomes completed, whatever its status was; no
      completing staff member is recorded. An unknown id changes nothing. */
  function CompleteTurn(db: Db, turnId: Uuid, now: Timestamp): (r: Db)
    ensures r.customers == db.customers && r.staff == db.staff
    ensures r.modules == db.modules && r.counters == db.counters
    ensures |r.turns| == |db.turns|
    ensures forall i :: 0 <= i < |db.turns| && db.turns[i].id != turnId ==> r.turns[i] == db.turns[i]
    ensures forall i :: 0 <= i < |db.turns| && db.turns[i].id == turnId ==>
              && r.turns[i].status == Completed && r.turns[i].completedAt == Some(now)
              && r.turns[i].completedBy == db.turns[i].completedBy
              && r.turns[i] == db.turns[i].(status := Completed, completedAt := Some(now))
    ensures !TurnIdUsed(db.turns, turnId) ==> r == db
  {
    var turns := MapWhere(db.turns, HasTurnId(turnId), MarkCompleted(now));
    assert !TurnIdUsed(db.turns, turnId) ==> turns == db.turns;
    db.(turns := turns)
  }

  // ---------------------------------------------------------------------------------------
  // Statistics

  datatype QueueStats = QueueStats(
    waiting: nat,
    beingServed: nat,
    completed: nat,
    cancelled: nat,
    nextTicket: Option<string>,
    totalToday: nat)

  /** Number of turns of `today` with status `s` (a status with no turns counts 0). */
  function CountStatus(turns: seq<Turn>, today: Date, s: Status): nat
  {
    |Filter(turns, OnDateWithStatus(today, s))|
  }

  /** A status count of a date is the number of table rows of that date and status. */
  lemma CountStatusCountsRows(turns: seq<Turn>, today: Date, s: Status)
    ensures CountStatus(turns, today, s)
            == |set i | 0 <= i < |turns| && turns[i].serviceDate == today && turns[i].status == s|
  {
    var p := OnDateWithStatus(today, s);
    FilterLengthCountsIndices(turns, p);
    var rows := set i | 0 <= i < |turns| && turns[i].serviceDate == today && turns[i].status == s;
    assert Positions(turns, p) == rows;
  }

  /** Counting a date's turns of one status is counting that date's turns among the turns of
      the status, in whatever order they are listed. */
  lemma CountStatusOfListing(turns: seq<Turn>, listing: seq<Turn>, today: Date, s: Status)
    requires multiset(listing) == multiset(Filter(turns, HasStatus(s)))
    ensures CountStatus(turns, today, s) == |Filter(listing, OnDate(today))|
  {
    FilterFilter(turns, HasStatus(s), OnDate(today), OnDateWithStatus(today, s));
    FilterPermutationLength(listing, Filter(turns, HasStatus(s)), OnDate(today));
  }

  /** `getQueueStats`: today's turns counted per status and in total, with the ticket code of
      the next waiting turn of any date (nothing when none waits or its code is empty). */
  function GetQueueStats(db: Db, today: Date): (r: QueueStats)
    ensures r.nextTicket.None? <==>
              GetNextInQueue(db.turns).None? || GetNextInQueue(db.turns).value.ticketCode == ""
    ensures r.nextTicket.Some? ==> r.nextTicket.value == GetNextInQueue(db.turns).value.ticketCode
    ensures r.totalToday == |Filter(db.turns, OnDate(today))|
    ensures r.waiting == |Filter(GetWaitingTurns(db.turns), OnDate(today))|
    ensures r.beingServed == |Filter(GetCurrentlyServed(db.turns), OnDate(today))|
    ensures r.completed
            == |set i | 0 <= i < |db.turns| && db.turns[i].serviceDate == today && db.turns[i].status == Completed|
    ensures r.cancelled
            == |set i | 0 <= i < |db.turns| && db.turns[i].serviceDate == today && db.turns[i].status == Cancelled|
  {
    CountStatusOfListing(db.turns, GetWaitingTurns(db.turns), today, Waiting);
    CountStatusOfListing(db.turns, GetCurrentlyServed(db.turns), today, BeingServed);
    CountStatusCountsRows(db.turns, today, Completed);
    CountStatusCountsRows(db.turns, today, Cancelled);
    var next := GetNextInQueue(db.turns);
    QueueStats(
      CountStatus(db.turns, today, Waiting),
      CountStatus(db.turns, today, BeingServed),
      CountStatus(db.turns, today, Completed),
      CountStatus(db.turns, today, Cancelled),
      if next.Some? && next.value.ticketCode != "" then Some(next.value.ticketCode) else None,
      |Filter(db.turns, OnDate(today))|)
  }
}
