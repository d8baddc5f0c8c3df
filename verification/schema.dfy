/** The persisted entities — customers (`users`), staff (`personal`), service modules, turns and
    the per-day ticket counter (`queue`) — and the database as one immutable value. */
module Schema {
  import opened Wrappers

  /** A `uuid` value: 128 bits, ordered by PostgreSQL as an unsigned number. */
  const UuidBound: nat := 0x1_0000_0000_0000_0000_0000_0000_0000_0000
  type Uuid = x: nat | x < UuidBound

  /** A `date` column, as its ISO text `YYYY-MM-DD`. */
  type Date = string

  /** A `timestamp` column, as an instant on a single clock. */
  type Timestamp = int

  /** Largest value of a PostgreSQL `integer` column. */
  const Int32Max: nat := 2147483647

  /** `value` fits a `varchar(limit)` column. */
  predicate FitsVarchar(value: string, limit: nat)
  {
    |value| <= limit
  }

  /** The `turn_status` enumeration. */
  datatype Status = Waiting | BeingServed | Completed | Cancelled

  /** The status a turn row takes when none is given. */
  const DefaultStatus: Status := Waiting

  /** A row of `turns`. The customer's name and national id are copied onto the turn when it is
      created; `completedAt` is also stamped on cancellation. */
  datatype Turn = Turn(
    id: Uuid,
    userId: Option<Uuid>,
    userName: string,
    userNationalId: string,
    moduleId: Option<Uuid>,
    ticketCode: string,
    status: Status,
    createdAt: Timestamp,
    calledAt: Option<Timestamp>,
    completedAt: Option<Timestamp>,
    completedBy: Option<Uuid>,
    serviceDate: Date)

  const TicketCodeLimit: nat := 10

  /** A row of `users`: a registered customer. */
  datatype Customer = Customer(id: Uuid, nationalId: string, name: string, createdAt: Timestamp)

  /** The `user_role` enumeration. */
  datatype Role = Admin | Agent | Receptionist

  /** A row of `personal`: a staff member; `password` holds the password hash. */
  datatype Staff = Staff(id: Uuid, name: string, email: string, password: string, role: Role, createdAt: Timestamp)

  const StaffNameLimit: nat := 100
  const StaffEmailLimit: nat := 255
  const StaffPasswordLimit: nat := 60

  /** A row of `modules`: a service counter. */
  datatype Module = Module(
    id: Uuid,
    name: string,
    description: Option<string>,
    isActive: bool,
    agentName: Option<string>,
    createdAt: Timestamp)

  const ModuleNameLimit: nat := 100
  const ModuleDescriptionLimit: nat := 255

  /** The database: the four tables and the daily counters, keyed by service date. */
  datatype Db = Db(
    customers: seq<Customer>,
    staff: seq<Staff>,
    modules: seq<Module>,
    turns: seq<Turn>,
    counters: map<Date, nat>)

  /** The state after a call, with what the call returned or threw. A call that throws may
      still have changed the state. */
  datatype Step<+T, +E> = Step(db: Db, result: Result<T, E>)

  /** The primary-key guarantee of `turns`: no two rows share an id. */
  ghost predicate UniqueTurnIds(turns: seq<Turn>)
  {
    forall i, j :: 0 <= i < |turns| && 0 <= j < |turns| && i != j ==> turns[i].id != turns[j].id
  }

  /** The `unique` constraint on `turns.ticket_code`: no two rows share a ticket code. */
  ghost predicate UniqueTicketCodes(turns: seq<Turn>)
  {
    forall i, j :: 0 <= i < |turns| && 0 <= j < |turns| && i != j ==> turns[i].ticketCode != turns[j].ticketCode
  }

  /** No module has two turns being served at once. */
  ghost predicate OneServedPerModule(turns: seq<Turn>)
  {
    forall i, j :: 0 <= i < |turns| && 0 <= j < |turns| && i != j
      && turns[i].status == BeingServed && turns[j].status == BeingServed
      && turns[i].moduleId.Some?
      ==> turns[i].moduleId != turns[j].moduleId
  }
}
