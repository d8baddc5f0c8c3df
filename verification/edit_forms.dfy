/** The admin edit forms for customers and modules: input rules, the duplicate check, and the
    diff of changed fields that is sent to the server. */
module EditForms {
  import opened Wrappers
  import opened Schema
  import opened Seqs
  import Text
  import ModuleService

  /** What a submit does: the input rules reject it, a duplicate blocks it with a notice, or
      the updates are sent. */
  datatype Submit<U> = Invalid | Blocked | Send(updates: U)

  const EditNameMin: nat := 4
  const EditNameMax: nat := 50
  const EditNationalIdMin: nat := 8
  const EditDescriptionMin: nat := 4
  const EditDescriptionMax: nat := 150

  /** An optional text field of the forms: empty, or between `lo` and `hi` characters. */
  predicate EmptyOrBetween(s: string, lo: nat, hi: nat)
  {
    s == "" || lo <= |s| <= hi
  }

  // ---------------------------------------------------------------------------------------
  // Customers

  /** The customer edit form's values. */
  datatype UserForm = UserForm(name: string, nationalId: string)

  /** The customer fields sent to the server; absent fields are not sent. */
  datatype UserUpdates = UserUpdates(name: Option<string>, nationalId: Option<string>)

  /** The customer form's rules: a name empty or of 4 to 50 characters, a national id empty or
      of at least 8. */
  predicate UserFormValid(v: UserForm)
  {
    EmptyOrBetween(v.name, EditNameMin, EditNameMax) && (v.nationalId == "" || |v.nationalId| >= EditNationalIdMin)
  }

  function OtherWithNationalId(user: Customer, nationalId: string): Customer -> bool
  {
    (u: Customer) => u.nationalId == nationalId && u.id != user.id
  }

  /** The edit form's `onSubmit` for `user`, against the loaded customer list. */
  function SubmitEditUser(user: Customer, users: seq<Customer>, v: UserForm): (r: Submit<UserUpdates>)
    ensures r.Invalid? <==> !UserFormValid(v)
    ensures r.Blocked? <==> UserFormValid(v) && v.nationalId != user.nationalId
                            && exists j :: 0 <= j < |users| && users[j].nationalId == v.nationalId && users[j].id != user.id
    ensures r.Send? ==> (r.updates.name.Some? <==> v.name != "" && v.name != user.name)
    ensures r.Send? ==> (r.updates.nationalId.Some? <==> v.nationalId != "" && v.nationalId != user.nationalId)
    ensures r.Send? && r.updates.name.Some? ==> r.updates.name.value == v.name
    ensures r.Send? && r.updates.nationalId.Some? ==> r.updates.nationalId.value == v.nationalId
  {
    if !UserFormValid(v) then Invalid
    else if v.nationalId != user.nationalId && Find(users, OtherWithNationalId(user, v.nationalId)).Some? then Blocked
    else Send(UserUpdates(
      if v.name != "" && v.name != user.name then Some(v.name) else None,
      if v.nationalId != "" && v.nationalId != user.nationalId then Some(v.nationalId) else None))
  }

  /** Resubmitting a customer's current values sends an empty update. */
  lemma UnchangedUserSendsNothing(user: Customer, users: seq<Customer>)
    requires UserFormValid(UserForm(user.name, user.nationalId))
    ensures SubmitEditUser(user, users, UserForm(user.name, user.nationalId)) == Send(UserUpdates(None, None))
  {
  }

  /** Reception registers names of 3 characters and national ids of 5 to 7, which this form
      rejects: such a customer cannot be resubmitted unchanged. */
  lemma ShortReceptionValuesRejected(user: Customer, users: seq<Customer>)
    requires |user.name| == 3 || 5 <= |user.nationalId| < EditNationalIdMin
    ensures SubmitEditUser(user, users, UserForm(user.name, user.nationalId)).Invalid?
  {
  }

  // ---------------------------------------------------------------------------------------
  // Modules

  /** The module edit form's values. The description is `None` when the module has none and the
      field was not touched: the field then still holds the module's `null`. */
  datatype ModuleForm = ModuleForm(name: string, description: Option<string>)

  /** The module form's rules: a name empty or of 4 to 50 characters, a description empty or of
      4 to 150. An optional field admits a missing value but not `null`, so an untouched
      description of a module that has none fails validation. */
  predicate ModuleFormValid(v: ModuleForm)
  {
    EmptyOrBetween(v.name, EditNameMin, EditNameMax)
    && v.description.Some? && EmptyOrBetween(v.description.value, EditDescriptionMin, EditDescriptionMax)
  }

  function OtherWithName(m: Module, name: string): Module -> bool
  {
    (u: Module) => u.name == name && u.id != m.id
  }

  /** The edit form's `onSubmit` for module `m`, against the loaded module list. */
  function SubmitEditModule(m: Module, modules: seq<Module>, v: ModuleForm): (r: Submit<ModuleService.ModuleUpdate>)
    ensures r.Invalid? <==> !ModuleFormValid(v)
    ensures r.Blocked? <==> ModuleFormValid(v) && v.name != m.name
                            && exists j :: 0 <= j < |modules| && modules[j].name == v.name && modules[j].id != m.id
    ensures r.Send? ==> (r.updates.name.Some? <==> v.name != "" && v.name != m.name)
    ensures r.Send? ==> (r.updates.description.Some? <==>
                           v.description.Some? && v.description.value != "" && v.description != m.description)
    ensures r.Send? && r.updates.name.Some? ==> r.updates.name.value == v.name
    ensures r.Send? && r.updates.description.Some? ==> r.updates.description == v.description
  {
    if !ModuleFormValid(v) then Invalid
    else if v.name != m.name && Find(modules, OtherWithName(m, v.name)).Some? then Blocked
    else Send(ModuleService.ModuleUpdate(
      if v.name != "" && v.name != m.name then Some(v.name) else None,
      if v.description.Some? && v.description.value != "" && v.description != m.description then v.description else None))
  }

  /** Resubmitting the current values of a module that has a description (a valid form has
      one) sends an empty update, which `ModuleService.Edit` refuses without changing anything. */
  lemma UnchangedModuleSendsNothing(db: Db, m: Module, modules: seq<Module>)
    requires ModuleFormValid(ModuleForm(m.name, m.description))
    ensures SubmitEditModule(m, modules, ModuleForm(m.name, m.description)) == Send(ModuleService.ModuleUpdate(None, None))
    ensures ModuleService.Edit(db, m.id, ModuleService.ModuleUpdate(None, None)) == Step(db, Err(ModuleService.NoValuesToSet))
  {
  }

  /** A module without a description cannot be edited until its description field is filled
      in: the untouched form is rejected, whatever the name. */
  lemma NullDescriptionBlocksEdit(m: Module, modules: seq<Module>, name: string)
    requires m.description.None?
    ensures SubmitEditModule(m, modules, ModuleForm(name, m.description)).Invalid?
  {
  }

  /** A sent module edit whose new name is not blank, applied by `ModuleService.Edit` to the
      module's row, gives that row the form's name; an untouched name is kept. */
  lemma SentModuleNameApplied(db: Db, m: Module, modules: seq<Module>, v: ModuleForm, i: nat)
    requires i < |db.modules| && db.modules[i].id == m.id && db.modules[i].name == m.name
    requires SubmitEditModule(m, modules, v).Send?
    requires v.name == "" || !Text.IsBlank(v.name)
    requires ModuleService.Edit(db, m.id, SubmitEditModule(m, modules, v).updates).result.Ok?
    ensures ModuleService.Edit(db, m.id, SubmitEditModule(m, modules, v).updates).db.modules[i].name
            == if v.name == "" then m.name else v.name
  {
  }
}
