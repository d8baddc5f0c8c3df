/** Properties of the turn and queue engine that relate several calls: ticket numbering over a
    run of creations, the table invariants every operation keeps, FIFO agreement between the
    listings and call-next, and the statistics. */
module QueueProperties {
  import opened Wrappers
  import opened Schema
  import opened Seqs
  import Sorting
  import Ticket
  import opened QueueService

  // ---------------------------------------------------------------------------------------
  // Ticket numbering

  /** One `createTurnForUser` request: the customer fields, the clock and the new row's id. */
  datatype Request = Request(userId: Uuid, userName: string, userNationalId: string, now: Timestamp, newId: Uuid)

  /** Run `step` on each request in order; the final state and each call's outcome. */
  function Run(step: (Db, Request) -> Step<Turn, QueueError>, db: Db, reqs: seq<Request>): (r: (Db, seq<Result<Turn, QueueError>>))
    ensures |r.1| == |reqs|
    decreases |reqs|
  {
    if |reqs| == 0 then (db, [])
    else
      var s := step(db, reqs[0]);
      var rest := Run(step, s.db, reqs[1..]);
      (rest.0, [s.result] + rest.1)
  }

  /** `createTurnForUser` on one service date, as a step over requests. */
  function Attempt(today: Date): (Db, Request) -> Step<Turn, QueueError>
  {
    (d: Db, q: Request) => CreateTurnForUser(d, q.userId, q.userName, q.userNationalId, today, q.now, q.newId)
  }

  /** Run `createTurnForUser` for each request in order on one service date. */
  function CreateAll(db: Db, today: Date, reqs: seq<Request>): (Db, seq<Result<Turn, QueueError>>)
  {
    Run(Attempt(today), db, reqs)
  }

  /** A step that numbers tickets with `code`: below the counter bound it moves the date's
      counter by one and, when it succeeds, issues the code of the new number. */
  ghost predicate NumbersTickets(step: (Db, Request) -> Step<Turn, QueueError>, code: nat -> string, today: Date)
  {
    forall d: Db, q: Request :: CounterFor(d.counters, today) + 1 <= Int32Max ==>
      && CounterFor(step(d, q).db.counters, today) == CounterFor(d.counters, today) + 1
      && (step(d, q).result.Ok? ==> step(d, q).result.value.ticketCode == code(CounterFor(d.counters, today) + 1))
  }

  /** One creation attempt moves today's counter by exactly one and, when it succeeds, issues
      the ticket code of the new number. */
  lemma CreationStep(today: Date)
    ensures NumbersTickets(Attempt(today), Ticket.TicketCode, today)
  {
  }

  /** Any numbering step, run k times, advances the counter by k. */
  lemma {:induction false} RunAdvancesCounter(step: (Db, Request) -> Step<Turn, QueueError>, code: nat -> string,
                                              today: Date, db: Db, reqs: seq<Request>)
    requires NumbersTickets(step, code, today)
    requires CounterFor(db.counters, today) + |reqs| <= Int32Max
    ensures CounterFor(Run(step, db, reqs).0.counters, today) == CounterFor(db.counters, today) + |reqs|
    decreases |reqs|
  {
    if |reqs| > 0 {
      var s := step(db, reqs[0]);
      assert CounterFor(s.db.counters, today) == CounterFor(db.counters, today) + 1;
      RunAdvancesCounter(step, code, today, s.db, reqs[1..]);
    }
  }

  /** Any numbering step, run over a list of requests, gives the attempt at position k, when it
      succeeds, the code of number counter + k + 1. */
  lemma {:induction false} RunCodeAt(step: (Db, Request) -> Step<Turn, QueueError>, code: nat -> string,
                                     today: Date, db: Db, reqs: seq<Request>, k: nat)
    requires NumbersTickets(step, code, today)
    requires CounterFor(db.counters, today) + |reqs| <= Int32Max
    requires k < |reqs| && Run(step, db, reqs).1[k].Ok?
    ensures Run(step, db, reqs).1[k].value.ticketCode == code(CounterFor(db.counters, today) + k + 1)
    decreases k
  {
    var s := step(db, reqs[0]);
    assert CounterFor(s.db.counters, today) == CounterFor(db.counters, today) + 1;
    if k == 0 {
      assert Run(step, db, reqs).1[0] == s.result;
    } else {
      assert Run(step, db, reqs).1[k] == Run(step, s.db, reqs[1..]).1[k - 1];
      RunCodeAt(step, code, today, s.db, reqs[1..], k - 1);
    }
  }

  /** Any numbering step, run k times, gives every successful attempt the code of its position's
      number. */
  lemma RunNumbersConsecutively(step: (Db, Request) -> Step<Turn, QueueError>, code: nat -> string,
                                today: Date, db: Db, reqs: seq<Request>)
    requires NumbersTickets(step, code, today)
    requires CounterFor(db.counters, today) + |reqs| <= Int32Max
    ensures forall k :: 0 <= k < |reqs| && Run(step, db, reqs).1[k].Ok? ==>
              Run(step, db, reqs).1[k].value.ticketCode == code(CounterFor(db.counters, today) + k + 1)
  {
    forall k | 0 <= k < |reqs| && Run(step, db, reqs).1[k].Ok?
      ensures Run(step, db, reqs).1[k].value.ticketCode == code(CounterFor(db.counters, today) + k + 1)
    {
      RunCodeAt(step, code, today, db, reqs, k);
    }
  }

  /** Every creation attempt on a date consumes the next number, whether its insert succeeds or
      not: after k attempts the counter has grown by k, and the k-th attempt, when it succeeds,
      carries the ticket code of number counter + k. */
  lemma CreationsNumberConsecutively(db: Db, today: Date, reqs: seq<Request>)
    requires CounterFor(db.counters, today) + |reqs| <= Int32Max
    ensures |CreateAll(db, today, reqs).1| == |reqs|
    ensures CounterFor(CreateAll(db, today, reqs).0.counters, today) == CounterFor(db.counters, today) + |reqs|
    ensures forall k :: 0 <= k < |reqs| && CreateAll(db, today, reqs).1[k].Ok? ==>
              CreateAll(db, today, reqs).1[k].value.ticketCode == Ticket.TicketCode(CounterFor(db.counters, today) + k + 1)
  {
    CreationStep(today);
    RunAdvancesCounter(Attempt(today), Ticket.TicketCode, today, db, reqs);
    RunNumbersConsecutively(Attempt(today), Ticket.TicketCode, today, db, reqs);
  }

  /** The creation attempt at position k of a run on one date, when it succeeds, carries the
      ticket code of number counter + k + 1. */
  lemma CreationCodeAt(db: Db, today: Date, reqs: seq<Request>, k: nat)
    requires CounterFor(db.counters, today) + |reqs| <= Int32Max
    requires k < |CreateAll(db, today, reqs).1| && CreateAll(db, today, reqs).1[k].Ok?
    ensures CreateAll(db, today, reqs).1[k].value.ticketCode == Ticket.TicketCode(CounterFor(db.counters, today) + k + 1)
  {
    CreationStep(today);
    RunCodeAt(Attempt(today), Ticket.TicketCode, today, db, reqs, k);
  }

  /** Tickets issued on one date are pairwise distinct, since their numbers are. */
  lemma CreationsIssueDistinctCodes(db: Db, today: Date, reqs: seq<Request>, a: nat, b: nat)
    requires CounterFor(db.counters, today) + |reqs| <= Int32Max
    requires a < b < |CreateAll(db, today, reqs).1|
    requires CreateAll(db, today, reqs).1[a].Ok? && CreateAll(db, today, reqs).1[b].Ok?
    ensures CreateAll(db, today, reqs).1[a].value.ticketCode != CreateAll(db, today, reqs).1[b].value.ticketCode
  {
    var n := CounterFor(db.counters, today);
    CreationCodeAt(db, today, reqs, a);
    CreationCodeAt(db, today, reqs, b);
    Ticket.TicketCodeInjective(n + a + 1, n + b + 1);
  }

  /** `ticketCode` is unique across the whole table, not per date: on a new day, while an
      earlier day's `A001` exists, the day's first creation is rejected, yet the day's
      counter has already been moved to 1. */
  lemma NewDayFirstTicketClashes(db: Db, today: Date, userId: Uuid, userName: string,
                                 userNationalId: string, now: Timestamp, newId: Uuid, i: nat)
    requires today !in db.counters
    requires i < |db.turns| && db.turns[i].ticketCode == "A001"
    requires !TurnIdUsed(db.turns, newId)
    ensures CreateTurnForUser(db, userId, userName, userNationalId, today, now, newId).result == Err(DuplicateTicketCode)
    ensures CreateTurnForUser(db, userId, userName, userNationalId, today, now, newId).db.counters[today] == 1
  {
    Ticket.TicketCodeExamples();
    var counted := db.(counters := db.counters[today := 1]);
    assert TicketCodeUsed(counted.turns, Ticket.TicketCode(1));
  }

  /** No check for an existing active turn: a customer who already waits gets a second turn as
      long as the insert's own constraints hold. */
  lemma CreateTurnIgnoresActiveTurns(db: Db, nationalId: string, today: Date, now: Timestamp,
                                     newId: Uuid, c: nat, w: nat)
    requires c < |db.customers| && db.customers[c].nationalId == nationalId
    requires w < |db.turns| && db.turns[w].userNationalId == nationalId && db.turns[w].status == Waiting
    requires CounterFor(db.counters, today) + 1 < 1_000_000_000
    requires !TurnIdUsed(db.turns, newId)
    requires !TicketCodeUsed(db.turns, Ticket.TicketCode(CounterFor(db.counters, today) + 1))
    ensures CreateTurn(db, nationalId, today, now, newId).result.Ok?
  {
    var cust := Find(db.customers, HasNationalId(nationalId));
    assert cust.Some?;
    var k :| 0 <= k < |db.customers| && db.customers[k] == cust.value && HasNationalId(nationalId)(db.customers[k]);
    assert CustomerExists(db.customers, cust.value.id);
    Ticket.TicketCodeFitsColumn(CounterFor(db.counters, today) + 1);
  }

  // ---------------------------------------------------------------------------------------
  // Table invariants

  /** The invariants of `turns`: primary key, unique ticket codes, one served turn per module. */
  ghost predicate TurnsInvariant(turns: seq<Turn>)
  {
    UniqueTurnIds(turns) && UniqueTicketCodes(turns) && OneServedPerModule(turns)
  }

  /** A turn creation keeps the invariants: the insert refuses a used id or ticket code, and
      the new turn serves no module. */
  lemma CreateTurnForUserKeepsInvariant(db: Db, userId: Uuid, userName: string, userNationalId: string,
                                        today: Date, now: Timestamp, newId: Uuid)
    requires TurnsInvariant(db.turns)
    ensures TurnsInvariant(CreateTurnForUser(db, userId, userName, userNationalId, today, now, newId).db.turns)
  {
    var s := CreateTurnForUser(db, userId, userName, userNationalId, today, now, newId);
    if s.result.Ok? {
      var t := s.result.value;
      var ts := s.db.turns;
      assert ts == db.turns + [t];
      assert !TurnIdUsed(db.turns, t.id) && !TicketCodeUsed(db.turns, t.ticketCode) by {
        assert Insertable(db.(counters := s.db.counters), t);
      }
      assert t.status == Waiting;
      forall i, j | 0 <= i < |ts| && 0 <= j < |ts| && i != j
        ensures ts[i].id != ts[j].id && ts[i].ticketCode != ts[j].ticketCode
      {
        if i == |db.turns| {
          assert ts[j] == db.turns[j];
        } else if j == |db.turns| {
          assert ts[i] == db.turns[i];
        }
      }
    }
  }

  /** `createTurn` for a registered national id is `createTurnForUser` for that customer: it
      advances the date's counter by one and, on success, appends one waiting turn of that date
      with no module and the new number's code. */
  lemma CreateTurnAppendsWaitingTurn(db: Db, nationalId: string, today: Date, now: Timestamp, newId: Uuid)
    ensures var s := CreateTurn(db, nationalId, today, now, newId);
            && (s.result != Err(UserNotFound) && CounterFor(db.counters, today) + 1 <= Int32Max
                ==> CounterFor(s.db.counters, today) == CounterFor(db.counters, today) + 1)
            && (s.result != Err(UserNotFound) && CounterFor(db.counters, today) + 1 > Int32Max
                ==> s.result == Err(CounterOutOfRange))
            && (s.result.Ok? ==>
                  && s.db.turns == db.turns + [s.result.value]
                  && s.result.value.id == newId
                  && s.result.value.status == Waiting
                  && s.result.value.serviceDate == today
                  && s.result.value.moduleId.None?
                  && s.result.value.ticketCode == Ticket.TicketCode(CounterFor(db.counters, today) + 1))
  {
    var s := CreateTurn(db, nationalId, today, now, newId);
    if s.result != Err(UserNotFound) {
      var i :| 0 <= i < |db.customers| && db.customers[i].nationalId == nationalId
               && s == CreateTurnForUser(db, db.customers[i].id, db.customers[i].name, nationalId, today, now, newId);
    }
  }

  /** `createTurn` keeps unique turn ids, unique ticket codes and one served turn per module. */
  lemma CreateTurnKeepsInvariant(db: Db, nationalId: string, today: Date, now: Timestamp, newId: Uuid)
    requires TurnsInvariant(db.turns)
    ensures TurnsInvariant(CreateTurn(db, nationalId, today, now, newId).db.turns)
  {
    var s := CreateTurn(db, nationalId, today, now, newId);
    if s.result != Err(UserNotFound) {
      var i :| 0 <= i < |db.customers| && db.customers[i].nationalId == nationalId
               && s == CreateTurnForUser(db, db.customers[i].id, db.customers[i].name, nationalId, today, now, newId);
      CreateTurnForUserKeepsInvariant(db, db.customers[i].id, db.customers[i].name, nationalId, today, now, newId);
    }
  }

  /** Cancellation keeps the invariants: ids and codes are untouched and a cancelled turn
      serves nothing. */
  lemma CancelTurnKeepsInvariant(db: Db, turnId: Uuid, now: Timestamp)
    requires TurnsInvariant(db.turns)
    ensures TurnsInvariant(CancelTurn(db, turnId, now).db.turns)
  {
    var s := CancelTurn(db, turnId, now);
    if s.result.Ok? {
      var ts := s.db.turns;
      assert forall i :: 0 <= i < |ts| ==> ts[i].id == db.turns[i].id && ts[i].ticketCode == db.turns[i].ticketCode;
      assert forall i :: 0 <= i < |ts| && ts[i].status == BeingServed ==> ts[i] == db.turns[i];
    }
  }

  /** Completion keeps the invariants, whatever the previous status of the turn. */
  lemma CompleteTurnKeepsInvariant(db: Db, turnId: Uuid, now: Timestamp)
    requires TurnsInvariant(db.turns)
    ensures TurnsInvariant(CompleteTurn(db, turnId, now).turns)
  {
    var ts := CompleteTurn(db, turnId, now).turns;
    assert forall i :: 0 <= i < |ts| ==> ts[i].id == db.turns[i].id && ts[i].ticketCode == db.turns[i].ticketCode;
    assert forall i :: 0 <= i < |ts| && ts[i].status == BeingServed ==> ts[i] == db.turns[i];
  }

  /** A module that is busy serves a turn at some row. */
  lemma BusyWitness(turns: seq<Turn>, moduleId: Uuid)
    ensures IsModuleBusy(turns, moduleId) <==>
              exists i :: 0 <= i < |turns| && turns[i].moduleId == Some(moduleId) && turns[i].status == BeingServed
  {
    if !IsModuleBusy(turns, moduleId) {
      assert forall i :: 0 <= i < |turns| ==> !ServingAt(moduleId)(turns[i]);
    } else {
      var k :| 0 <= k < |turns| && ServingAt(moduleId)(turns[k]);
    }
  }

  /** Turning one non-served row `k` into a row served at module `m`, where no row was served
      at `m`, keeps at most one served turn per module. */
  lemma ServeOneKeepsOneServed(turns: seq<Turn>, ts: seq<Turn>, k: nat, m: Uuid)
    requires |ts| == |turns| && k < |turns|
    requires turns[k].status != BeingServed
    requires ts[k].status == BeingServed && ts[k].moduleId == Some(m)
    requires forall i :: 0 <= i < |turns| && i != k ==> ts[i] == turns[i]
    requires forall i :: 0 <= i < |turns| ==> !(turns[i].moduleId == Some(m) && turns[i].status == BeingServed)
    requires OneServedPerModule(turns)
    ensures OneServedPerModule(ts)
  {
    forall i, j | 0 <= i < |ts| && 0 <= j < |ts| && i != j && ts[i].status == BeingServed
                  && ts[j].status == BeingServed && ts[i].moduleId.Some?
      ensures ts[i].moduleId != ts[j].moduleId
    {
      if i == k {
        assert ts[j] == turns[j];
      } else if j == k {
        assert ts[i] == turns[i];
      } else {
        assert ts[i] == turns[i] && ts[j] == turns[j];
      }
    }
  }

  /** Rewriting one row while keeping its id and ticket code keeps ids and codes unique. */
  lemma RewriteOneKeepsKeys(turns: seq<Turn>, ts: seq<Turn>, k: nat)
    requires |ts| == |turns| && k < |turns|
    requires ts[k].id == turns[k].id && ts[k].ticketCode == turns[k].ticketCode
    requires forall i :: 0 <= i < |turns| && i != k ==> ts[i] == turns[i]
    requires UniqueTurnIds(turns) && UniqueTicketCodes(turns)
    ensures UniqueTurnIds(ts) && UniqueTicketCodes(ts)
  {
    assert forall i :: 0 <= i < |ts| ==> ts[i].id == turns[i].id && ts[i].ticketCode == turns[i].ticketCode;
  }

  /** A successful call-next, with unique turn ids, rewrites exactly one row: a waiting turn
      becomes served at a module that served nothing. */
  lemma AssignRewritesOneRow(db: Db, moduleId: Uuid, now: Timestamp) returns (k: nat)
    requires UniqueTurnIds(db.turns)
    requires AssignToModule(db, moduleId, now).result.Ok?
    ensures var ts := AssignToModule(db, moduleId, now).db.turns;
            && |ts| == |db.turns| && k < |db.turns|
            && db.turns[k].status == Waiting
            && ts[k] == MarkCalled(moduleId, now)(db.turns[k])
            && (forall i :: 0 <= i < |db.turns| && i != k ==> ts[i] == db.turns[i])
            && (forall i :: 0 <= i < |db.turns| ==> !(db.turns[i].moduleId == Some(moduleId) && db.turns[i].status == BeingServed))
  {
    var next := GetNextInQueue(db.turns).value;
    var ts := AssignToModule(db, moduleId, now).db.turns;
    BusyWitness(db.turns, moduleId);
    k :| 0 <= k < |db.turns| && db.turns[k] == next;
    forall i | 0 <= i < |ts| && i != k ensures ts[i] == db.turns[i] {
      assert db.turns[i].id != db.turns[k].id;
    }
  }

  /** Call-next keeps the invariants: exactly one waiting turn becomes served, at a module that
      served nothing. Hence no module ever acquires a second turn being served. */
  lemma AssignToModuleKeepsInvariant(db: Db, moduleId: Uuid, now: Timestamp)
    requires TurnsInvariant(db.turns)
    ensures TurnsInvariant(AssignToModule(db, moduleId, now).db.turns)
  {
    if AssignToModule(db, moduleId, now).result.Ok? {
      var k := AssignRewritesOneRow(db, moduleId, now);
      var ts := AssignToModule(db, moduleId, now).db.turns;
      ServeOneKeepsOneServed(db.turns, ts, k, moduleId);
      RewriteOneKeepsKeys(db.turns, ts, k);
    }
  }

  // ---------------------------------------------------------------------------------------
  // Cancellation and completion

  /** Cancelling the same turn twice: the second call is always refused as already cancelled,
      and leaves the state as the first call left it. */
  lemma CancelTwiceFails(db: Db, turnId: Uuid, now1: Timestamp, now2: Timestamp)
    requires CancelTurn(db, turnId, now1).result.Ok?
    ensures CancelTurn(CancelTurn(db, turnId, now1).db, turnId, now2).result == Err(AlreadyCancelled)
    ensures CancelTurn(CancelTurn(db, turnId, now1).db, turnId, now2).db == CancelTurn(db, turnId, now1).db
  {
    var s1 := CancelTurn(db, turnId, now1);
    var f := Find(db.turns, HasTurnId(turnId));
    var k :| 0 <= k < |db.turns| && db.turns[k] == f.value && HasTurnId(turnId)(db.turns[k])
             && forall j :: 0 <= j < k ==> !HasTurnId(turnId)(db.turns[j]);
    assert s1.db.turns[k].status == Cancelled;
    assert forall j :: 0 <= j < k ==> s1.db.turns[j].id != turnId;
    CancelOutcome(s1.db, turnId, now2, k);
  }

  /** Completing a turn twice leaves it as completing it once at the later time. */
  lemma CompleteTwiceIsOnce(db: Db, turnId: Uuid, now1: Timestamp, now2: Timestamp)
    ensures CompleteTurn(CompleteTurn(db, turnId, now1), turnId, now2) == CompleteTurn(db, turnId, now2)
  {
    var a := CompleteTurn(CompleteTurn(db, turnId, now1), turnId, now2);
    var b := CompleteTurn(db, turnId, now2);
    assert a.turns == b.turns;
  }

  // ---------------------------------------------------------------------------------------
  // FIFO agreement

  /** The turn `getNextInQueue` selects is the head of `getWaitingTurns`. */
  lemma NextIsHeadOfWaitingList(turns: seq<Turn>)
    ensures GetNextInQueue(turns) == if |GetWaitingTurns(turns)| == 0 then None else Some(GetWaitingTurns(turns)[0])
  {
    var waiting := Filter(turns, HasStatus(Waiting));
    if |waiting| > 0 {
      Sorting.SortHeadIsMin(waiting, CreatedKey);
    }
  }

  /** Call-next serves the head of the waiting list. */
  lemma AssignServesHeadOfWaitingList(db: Db, moduleId: Uuid, now: Timestamp)
    requires AssignToModule(db, moduleId, now).result.Ok?
    ensures |GetWaitingTurns(db.turns)| > 0
    ensures AssignToModule(db, moduleId, now).result.value.id == GetWaitingTurns(db.turns)[0].id
    ensures AssignToModule(db, moduleId, now).result.value.ticketCode == GetWaitingTurns(db.turns)[0].ticketCode
  {
    NextIsHeadOfWaitingList(db.turns);
  }

  // ---------------------------------------------------------------------------------------
  // Statistics

  /** The four status counts of a date add up to the number of its turns. */
  lemma {:induction false} StatusCountsPartition(turns: seq<Turn>, today: Date)
    ensures CountStatus(turns, today, Waiting) + CountStatus(turns, today, BeingServed)
            + CountStatus(turns, today, Completed) + CountStatus(turns, today, Cancelled)
            == |Filter(turns, OnDate(today))|
  {
    if |turns| > 0 {
      StatusCountsPartition(turns[1..], today);
    }
  }

  /** The statistics' status counts sum to `totalToday`. */
  lemma StatsSumToTotal(db: Db, today: Date)
    ensures var st := GetQueueStats(db, today);
            st.waiting + st.beingServed + st.completed + st.cancelled == st.totalToday
  {
    StatusCountsPartition(db.turns, today);
  }

  /** Completing today's turn that is being served moves it from the served count to the
      completed count; the other counts and the total stay as they were. */
  lemma CompleteServedTurnUpdatesStats(db: Db, today: Date, turnId: Uuid, now: Timestamp, k: nat)
    requires UniqueTurnIds(db.turns)
    requires k < |db.turns| && db.turns[k].id == turnId
    requires db.turns[k].status == BeingServed && db.turns[k].serviceDate == today
    ensures var before := GetQueueStats(db, today);
            var after := GetQueueStats(CompleteTurn(db, turnId, now), today);
            && after.waiting == before.waiting && after.cancelled == before.cancelled
            && after.beingServed + 1 == before.beingServed && after.completed == before.completed + 1
            && after.totalToday == before.totalToday
  {
    var ts := CompleteTurn(db, turnId, now).turns;
    forall i | 0 <= i < |db.turns| && i != k ensures db.turns[i] == ts[i] {
      assert db.turns[i].id != db.turns[k].id;
    }
    FilterCountUpdate(db.turns, ts, k, OnDateWithStatus(today, Waiting));
    FilterCountUpdate(db.turns, ts, k, OnDateWithStatus(today, BeingServed));
    FilterCountUpdate(db.turns, ts, k, OnDateWithStatus(today, Completed));
    FilterCountUpdate(db.turns, ts, k, OnDateWithStatus(today, Cancelled));
    FilterCountUpdate(db.turns, ts, k, OnDate(today));
  }

  /** The statistics' next ticket is the ticket code at the head of the waiting list. */
  lemma StatsNextTicketIsHeadOfWaitingList(db: Db, today: Date)
    ensures |GetWaitingTurns(db.turns)| == 0 ==> GetQueueStats(db, today).nextTicket.None?
    ensures |GetWaitingTurns(db.turns)| > 0 && GetWaitingTurns(db.turns)[0].ticketCode != "" ==>
              GetQueueStats(db, today).nextTicket == Some(GetWaitingTurns(db.turns)[0].ticketCode)
  {
    NextIsHeadOfWaitingList(db.turns);
  }
}
