/** The server's staff service: look-up by e-mail, creation with a hashed password, partial
    edit and deletion. The password hash is a parameter, since it is computed outside the
    program. */
module PersonalService {
  import opened Wrappers
  import opened Schema
  import opened Seqs
  import opened Text

  /** Why a staff write is refused by the database. */
  datatype PersonalError = NameTooLong | EmailTooLong | PasswordTooLong | EmailTaken | DuplicateStaffId
                         | NoValuesToSet | StaffReferenced

  /** What `findForAuth` selects: the id and the stored hash. */
  datatype AuthRow = AuthRow(id: Uuid, password: string)

  function HasEmail(email: string): Staff -> bool
  {
    (p: Staff) => p.email == email
  }

  function HasStaffId(id: Uuid): Staff -> bool
  {
    (p: Staff) => p.id == id
  }

  function NotStaffId(id: Uuid): Staff -> bool
  {
    (p: Staff) => p.id != id
  }

  predicate StaffIdUsed(staff: seq<Staff>, id: Uuid)
  {
    exists i :: 0 <= i < |staff| && staff[i].id == id
  }

  /** Another staff member than `id` has the e-mail. */
  predicate EmailUsedByOther(staff: seq<Staff>, email: string, id: Uuid)
  {
    exists i :: 0 <= i < |staff| && staff[i].email == email && staff[i].id != id
  }

  /** The `unique` constraint on `personal.email`. */
  ghost predicate UniqueEmails(staff: seq<Staff>)
  {
    forall i, j :: 0 <= i < |staff| && 0 <= j < |staff| && i != j ==> staff[i].email != staff[j].email
  }

  /** `findForAuth`: the id and password hash of the staff member with exactly that e-mail. */
  function FindForAuth(staff: seq<Staff>, email: string): (r: Option<AuthRow>)
    ensures r.None? <==> forall i :: 0 <= i < |staff| ==> staff[i].email != email
    ensures r.Some? ==> exists i :: 0 <= i < |staff| && staff[i].email == email
                                    && r.value == AuthRow(staff[i].id, staff[i].password)
  {
    match Find(staff, HasEmail(email))
    case None => None
    case Some(p) => Some(AuthRow(p.id, p.password))
  }

  /** `exists`: the e-mail itself when a staff member has it. */
  function Exists(staff: seq<Staff>, email: string): (r: Option<string>)
    ensures r.None? <==> forall i :: 0 <= i < |staff| ==> staff[i].email != email
    ensures r.Some? ==> r.value == email
  {
    match Find(staff, HasEmail(email))
    case None => None
    case Some(p) => Some(p.email)
  }

  /** `create`: insert a staff member whose stored password is `hash(password, salt)`.
      `newId` and `now` stand for the column defaults. */
  function Create(db: Db, name: string, email: string, password: string, role: Role,
                  hash: (string, string) -> string, salt: string, newId: Uuid, now: Timestamp): (s: Step<Staff, PersonalError>)
    ensures s.db.customers == db.customers && s.db.modules == db.modules
    ensures s.db.turns == db.turns && s.db.counters == db.counters
    ensures s.result.Err? ==> s.db == db
    ensures s.result.Ok? <==>
              && FitsVarchar(name, StaffNameLimit) && FitsVarchar(email, StaffEmailLimit)
              && FitsVarchar(hash(password, salt), StaffPasswordLimit)
              && !StaffIdUsed(db.staff, newId) && Exists(db.staff, email).None?
    ensures s.result.Ok? ==> s.db.staff == db.staff + [s.result.value]
    ensures s.result.Ok? ==> s.result.value == Staff(newId, name, email, hash(password, salt), role, now)
  {
    var hashed := hash(password, salt);
    if !FitsVarchar(name, StaffNameLimit) then Step(db, Err(NameTooLong))
    else if !FitsVarchar(email, StaffEmailLimit) then Step(db, Err(EmailTooLong))
    else if !FitsVarchar(hashed, StaffPasswordLimit) then Step(db, Err(PasswordTooLong))
    else if StaffIdUsed(db.staff, newId) then Step(db, Err(DuplicateStaffId))
    else if Exists(db.staff, email).Some? then Step(db, Err(EmailTaken))
    else
      var p := Staff(newId, name, email, hashed, role, now);
      Step(db.(staff := db.staff + [p]), Ok(p))
  }

  /** The fields a client asks to change; absent fields are not sent. */
  datatype StaffUpdate = StaffUpdate(name: Option<string>, email: Option<string>, password: Option<string>, role: Option<Role>)

  /** The row with the selected fields written; `password` is already hashed. */
  function ApplyUpdate(name: Option<string>, email: Option<string>, password: Option<string>, role: Option<Role>): Staff -> Staff
  {
    (p: Staff) => p.(name := name.GetOr(p.name), email := email.GetOr(p.email),
                     password := password.GetOr(p.password), role := role.GetOr(p.role))
  }

  /** `edit`: write the selected fields on the staff member with that id, the password as
      `hash(password, salt)`, and return the first updated row. Nothing selected is refused;
      a too-long value or an e-mail another member has is refused once a row is written. */
  function Edit(db: Db, id: Uuid, update: StaffUpdate, hash: (string, string) -> string, salt: string)
    : (s: Step<Option<Staff>, PersonalError>)
    ensures s.db.customers == db.customers && s.db.modules == db.modules
    ensures s.db.turns == db.turns && s.db.counters == db.counters
    ensures s.result.Err? ==> s.db == db
    ensures s.result == Err(NoValuesToSet) <==>
              Selected(update.name).None? && Selected(update.email).None? && Selected(update.password).None? && update.role.None?
    ensures s.result == Err(EmailTaken) ==> update.email.Some? && EmailUsedByOther(db.staff, update.email.value, id)
    ensures s.result.Ok? ==> |s.db.staff| == |db.staff|
    ensures s.result.Ok? ==> forall i :: 0 <= i < |db.staff| && db.staff[i].id != id ==> s.db.staff[i] == db.staff[i]
    ensures s.result.Ok? ==> forall i :: 0 <= i < |db.staff| && db.staff[i].id == id ==>
              var p := s.db.staff[i];
              && p.id == id && p.createdAt == db.staff[i].createdAt
              && (p.name == if update.name.Some? && !IsBlank(update.name.value) then update.name.value else db.staff[i].name)
              && (p.email == if update.email.Some? && !IsBlank(update.email.value) then update.email.value else db.staff[i].email)
              && (p.password == if update.password.Some? && !IsBlank(update.password.value)
                                then hash(update.password.value, salt) else db.staff[i].password)
              && (p.role == if update.role.Some? then update.role.value else db.staff[i].role)
    ensures s.result.Ok? ==> (s.result.value.None? <==> !StaffIdUsed(db.staff, id))
    ensures s.result.Ok? && s.result.value.Some? ==> s.result.value.value in s.db.staff && s.result.value.value.id == id
  {
    var name := Selected(update.name);
    var email := Selected(update.email);
    var password := if Selected(update.password).Some? then Some(hash(update.password.value, salt)) else None;
    var written := StaffIdUsed(db.staff, id);
    if name.None? && email.None? && password.None? && update.role.None? then Step(db, Err(NoValuesToSet))
    else if written && name.Some? && !FitsVarchar(name.value, StaffNameLimit) then Step(db, Err(NameTooLong))
    else if written && email.Some? && !FitsVarchar(email.value, StaffEmailLimit) then Step(db, Err(EmailTooLong))
    else if written && password.Some? && !FitsVarchar(password.value, StaffPasswordLimit) then Step(db, Err(PasswordTooLong))
    else if written && email.Some? && EmailUsedByOther(db.staff, email.value, id) then Step(db, Err(EmailTaken))
    else
      var staff := MapWhere(db.staff, HasStaffId(id), ApplyUpdate(name, email, password, update.role));
      assert written <==> StaffIdUsed(staff, id);
      Step(db.(staff := staff), Ok(Find(staff, HasStaffId(id))))
  }

  /** The e-mail column is unique, so a successful edit never gives a member an e-mail that
      another member already has. */
  lemma EditNeverTakesEmail(db: Db, id: Uuid, update: StaffUpdate, hash: (string, string) -> string, salt: string)
    requires StaffIdUsed(db.staff, id) && Selected(update.email).Some?
    requires EmailUsedByOther(db.staff, update.email.value, id)
    ensures Edit(db, id, update, hash, salt).result.Err?
  {
  }

  /** `delete`: remove the staff member with that id and return the removed row. A turn that
      records the member as its completer blocks the delete (the reference has no cascade). */
  function Delete(db: Db, id: Uuid): (s: Step<Option<Staff>, PersonalError>)
    ensures s.db.customers == db.customers && s.db.modules == db.modules
    ensures s.db.turns == db.turns && s.db.counters == db.counters
    ensures s.result.Err? ==> s.db == db
    ensures s.result.Err? <==> StaffIdUsed(db.staff, id) && exists i :: 0 <= i < |db.turns| && db.turns[i].completedBy == Some(id)
    ensures s.result.Ok? ==> s.db.staff == Filter(db.staff, NotStaffId(id))
    ensures s.result.Ok? ==> forall i :: 0 <= i < |s.db.staff| ==> s.db.staff[i].id != id
    ensures s.result.Ok? ==> (s.result.value.None? <==> !StaffIdUsed(db.staff, id))
    ensures s.result.Ok? && s.result.value.Some? ==> s.result.value.value in db.staff && s.result.value.value.id == id
  {
    if StaffIdUsed(db.staff, id) && exists i :: 0 <= i < |db.turns| && db.turns[i].completedBy == Some(id) then
      Step(db, Err(StaffReferenced))
    else
      var staff := Filter(db.staff, NotStaffId(id));
      assert forall i :: 0 <= i < |staff| ==> NotStaffId(id)(staff[i]);
      Step(db.(staff := staff), Ok(Find(db.staff, HasStaffId(id))))
  }

  /** After a successful create, logging in under the new e-mail finds the new member and the
      hash of the password given. */
  lemma CreatedStaffFoundForAuth(db: Db, name: string, email: string, password: string, role: Role,
                                 hash: (string, string) -> string, salt: string, newId: Uuid, now: Timestamp)
    requires Create(db, name, email, password, role, hash, salt, newId, now).result.Ok?
    ensures FindForAuth(Create(db, name, email, password, role, hash, salt, newId, now).db.staff, email)
            == Some(AuthRow(newId, hash(password, salt)))
  {
    var staff := Create(db, name, email, password, role, hash, salt, newId, now).db.staff;
    FindFirstMatch(staff, HasEmail(email));
    assert HasEmail(email)(staff[|db.staff|]);
    assert forall j :: 0 <= j < |db.staff| ==> !HasEmail(email)(staff[j]);
  }

  /** Create keeps e-mails unique. */
  lemma CreateKeepsEmailsUnique(db: Db, name: string, email: string, password: string, role: Role,
                                hash: (string, string) -> string, salt: string, newId: Uuid, now: Timestamp)
    requires UniqueEmails(db.staff)
    ensures UniqueEmails(Create(db, name, email, password, role, hash, salt, newId, now).db.staff)
  {
    var s := Create(db, name, email, password, role, hash, salt, newId, now);
    if s.result.Ok? {
      var staff := s.db.staff;
      forall i, j | 0 <= i < |staff| && 0 <= j < |staff| && i != j ensures staff[i].email != staff[j].email {
        if i == |db.staff| {
          assert staff[j] == db.staff[j];
        } else if j == |db.staff| {
          assert staff[i] == db.staff[i];
        }
      }
    }
  }

  /** With unique ids, an edit that sets a new password stores its hash on that member, and
      logging in under the member's e-mail then finds that hash. */
  lemma EditedPasswordFoundForAuth(db: Db, id: Uuid, update: StaffUpdate, hash: (string, string) -> string, salt: string, k: nat)
    requires UniqueEmails(db.staff)
    requires k < |db.staff| && db.staff[k].id == id
    requires forall i :: 0 <= i < |db.staff| && i != k ==> db.staff[i].id != id
    requires update.email.None? && update.password.Some? && !IsBlank(update.password.value)
    requires Edit(db, id, update, hash, salt).result.Ok?
    ensures FindForAuth(Edit(db, id, update, hash, salt).db.staff, db.staff[k].email)
            == Some(AuthRow(id, hash(update.password.value, salt)))
  {
    var staff := Edit(db, id, update, hash, salt).db.staff;
    FindFirstMatch(staff, HasEmail(db.staff[k].email));
    assert staff[k].email == db.staff[k].email;
    forall j | 0 <= j < k ensures !HasEmail(db.staff[k].email)(staff[j]) {
      assert staff[j] == db.staff[j];
    }
  }

  /** With unique e-mails, a deleted member can no longer log in. */
  lemma DeletedStaffNotFound(db: Db, id: Uuid, k: nat)
    requires UniqueEmails(db.staff)
    requires k < |db.staff| && db.staff[k].id == id
    requires Delete(db, id).result.Ok?
    ensures FindForAuth(Delete(db, id).db.staff, db.staff[k].email).None?
  {
    var staff := Delete(db, id).db.staff;
    forall i | 0 <= i < |staff| ensures staff[i].email != db.staff[k].email {
      var j :| 0 <= j < |db.staff| && db.staff[j] == staff[i];
      assert j != k;
    }
  }
}
