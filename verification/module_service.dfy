/** The server's module service: look-up by name, creation, partial edit and deletion of
    service modules. */
module ModuleService {
  import opened Wrappers
  import opened Schema
  import opened Seqs
  import opened Text

  /** Why a module write is refused by the database. */
  datatype ModuleError = NameTooLong | DescriptionTooLong | DuplicateModuleId | NoValuesToSet

  function HasName(name: string): Module -> bool
  {
    (m: Module) => m.name == name
  }

  function HasId(id: Uuid): Module -> bool
  {
    (m: Module) => m.id == id
  }

  function NotId(id: Uuid): Module -> bool
  {
    (m: Module) => m.id != id
  }

  function NotAtModule(id: Uuid): Turn -> bool
  {
    (t: Turn) => t.moduleId != Some(id)
  }

  predicate ModuleIdUsed(modules: seq<Module>, id: Uuid)
  {
    exists i :: 0 <= i < |modules| && modules[i].id == id
  }

  /** `exists`: a module with exactly that name, or nothing. */
  function Exists(modules: seq<Module>, name: string): (r: Option<Module>)
    ensures r.None? <==> forall i :: 0 <= i < |modules| ==> modules[i].name != name
    ensures r.Some? ==> r.value in modules && r.value.name == name
  {
    Find(modules, HasName(name))
  }

  /** `create`: insert a module with the given name and description; it is active and has no
      agent. `newId` and `now` stand for the column defaults. */
  function Create(db: Db, name: string, description: string, newId: Uuid, now: Timestamp): (s: Step<Module, ModuleError>)
    ensures s.db.customers == db.customers && s.db.staff == db.staff
    ensures s.db.turns == db.turns && s.db.counters == db.counters
    ensures s.result.Err? ==> s.db == db
    ensures s.result.Ok? <==> FitsVarchar(name, ModuleNameLimit) && FitsVarchar(description, ModuleDescriptionLimit)
                              && !ModuleIdUsed(db.modules, newId)
    ensures s.result.Ok? ==> s.db.modules == db.modules + [s.result.value]
    ensures s.result.Ok? ==> s.result.value == Module(newId, name, Some(description), true, None, now)
  {
    if !FitsVarchar(name, ModuleNameLimit) then Step(db, Err(NameTooLong))
    else if !FitsVarchar(description, ModuleDescriptionLimit) then Step(db, Err(DescriptionTooLong))
    else if ModuleIdUsed(db.modules, newId) then Step(db, Err(DuplicateModuleId))
    else
      var m := Module(newId, name, Some(description), true, None, now);
      Step(db.(modules := db.modules + [m]), Ok(m))
  }

  /** The fields a client asks to change; absent fields are not sent. */
  datatype ModuleUpdate = ModuleUpdate(name: Option<string>, description: Option<string>)

  /** The row with the selected fields written. */
  function ApplyUpdate(name: Option<string>, description: Option<string>): Module -> Module
  {
    (m: Module) => m.(name := name.GetOr(m.name), description := if description.Some? then description else m.description)
  }

  /** `edit`: write the selected fields on the rows with that id, and return the first updated
      row. Nothing selected is refused (an update must set at least one column), and a value
      too long for its column is refused once a row is to be written. */
  function Edit(db: Db, id: Uuid, update: ModuleUpdate): (s: Step<Option<Module>, ModuleError>)
    ensures s.db.customers == db.customers && s.db.staff == db.staff
    ensures s.db.turns == db.turns && s.db.counters == db.counters
    ensures s.result.Err? ==> s.db == db
    ensures s.result == Err(NoValuesToSet) <==> Selected(update.name).None? && Selected(update.description).None?
    ensures s.result.Ok? ==> |s.db.modules| == |db.modules|
    ensures s.result.Ok? ==> forall i :: 0 <= i < |db.modules| && db.modules[i].id != id ==> s.db.modules[i] == db.modules[i]
    ensures s.result.Ok? ==> forall i :: 0 <= i < |db.modules| && db.modules[i].id == id ==>
              var m := s.db.modules[i];
              && m.id == id && m.isActive == db.modules[i].isActive && m.agentName == db.modules[i].agentName
              && m.createdAt == db.modules[i].createdAt
              && (m.name == if update.name.Some? && !IsBlank(update.name.value) then update.name.value else db.modules[i].name)
              && (m.description == if update.description.Some? && !IsBlank(update.description.value)
                                   then update.description else db.modules[i].description)
    ensures s.result.Ok? ==> (s.result.value.None? <==> !ModuleIdUsed(db.modules, id))
    ensures s.result.Ok? && s.result.value.Some? ==> s.result.value.value in s.db.modules && s.result.value.value.id == id
  {
    var name := Selected(update.name);
    var description := Selected(update.description);
    if name.None? && description.None? then Step(db, Err(NoValuesToSet))
    else if ModuleIdUsed(db.modules, id) && name.Some? && !FitsVarchar(name.value, ModuleNameLimit) then
      Step(db, Err(NameTooLong))
    else if ModuleIdUsed(db.modules, id) && description.Some? && !FitsVarchar(description.value, ModuleDescriptionLimit) then
      Step(db, Err(DescriptionTooLong))
    else
      var modules := MapWhere(db.modules, HasId(id), ApplyUpdate(name, description));
      assert ModuleIdUsed(db.modules, id) <==> ModuleIdUsed(modules, id);
      Step(db.(modules := modules), Ok(Find(modules, HasId(id))))
  }

  /** `delete`: remove the modules with that id and return the first removed; the turns that
      reference the module go with it (`on delete cascade`). */
  function Delete(db: Db, id: Uuid): (r: (Db, Option<Module>))
    ensures r.0.customers == db.customers && r.0.staff == db.staff && r.0.counters == db.counters
    ensures r.0.modules == Filter(db.modules, NotId(id))
    ensures forall i :: 0 <= i < |r.0.modules| ==> r.0.modules[i].id != id
    ensures r.0.turns == Filter(db.turns, NotAtModule(id))
    ensures r.1.None? <==> !ModuleIdUsed(db.modules, id)
    ensures r.1.Some? ==> r.1.value in db.modules && r.1.value.id == id
  {
    var removed := Find(db.modules, HasId(id));
    var modules := Filter(db.modules, NotId(id));
    assert forall i :: 0 <= i < |modules| ==> NotId(id)(modules[i]);
    (db.(modules := modules, turns := Filter(db.turns, NotAtModule(id))), removed)
  }

  /** An all-blank update changes nothing. */
  lemma BlankUpdateChangesNothing(db: Db, id: Uuid, update: ModuleUpdate)
    requires update.name.None? || IsBlank(update.name.value)
    requires update.description.None? || IsBlank(update.description.value)
    ensures Edit(db, id, update).db == db
  {
  }

  /** After a successful create, `exists` finds a module under the new name. */
  lemma CreatedModuleExists(db: Db, name: string, description: string, newId: Uuid, now: Timestamp)
    requires Create(db, name, description, newId, now).result.Ok?
    ensures Exists(Create(db, name, description, newId, now).db.modules, name).Some?
  {
    var ms := Create(db, name, description, newId, now).db.modules;
    assert ms[|ms| - 1].name == name;
  }

  /** Deleting a module just created, which no turn references, restores the database. */
  lemma {:induction false} CreateThenDeleteRestores(db: Db, name: string, description: string, newId: Uuid, now: Timestamp)
    requires Create(db, name, description, newId, now).result.Ok?
    requires forall i :: 0 <= i < |db.turns| ==> db.turns[i].moduleId != Some(newId)
    ensures Delete(Create(db, name, description, newId, now).db, newId).0 == db
  {
    var s := Create(db, name, description, newId, now);
    FilterAppend(db.modules, [s.result.value], NotId(newId));
    FilterAll(db.modules, NotId(newId));
    assert Filter([s.result.value], NotId(newId)) == [];
    FilterAll(db.turns, NotAtModule(newId));
  }

  /** Deleting twice is deleting once. */
  lemma {:induction false} DeleteIdempotent(db: Db, id: Uuid)
    ensures Delete(Delete(db, id).0, id).0 == Delete(db, id).0
  {
    var once := Delete(db, id).0;
    FilterAll(once.modules, NotId(id));
    assert forall i :: 0 <= i < |once.turns| ==> NotAtModule(id)(once.turns[i]);
    FilterAll(once.turns, NotAtModule(id));
  }
}
