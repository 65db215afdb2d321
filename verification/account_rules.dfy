/**
 * Register and Edit on an accounts table: the logic of
 * pkg/account/service/accountServiceImpl.go, which the current
 * pkg/service/accountService.go repeats line for line.
 */
module AccountRules {

  import opened Optional
  import opened Errors
  import opened Dates
  import opened Tables
  import opened Domain
  import opened Model

  /** Which repository calls of Register fail. */
  datatype RegisterFaults = RegisterFaults(lookup: Option<Error>, save: Option<Error>)

  /** Which repository calls of Edit fail. */
  datatype EditFaults = EditFaults(lookup: Option<Error>, update: Option<Error>)

  /** fmt.Errorf("account %v already exist", id). */
  function AlreadyExist(id: Id): Error {
    Plain("account " + id + " already exist")
  }

  /**
   * Register: refused when the lookup finds the id; a lookup error does not
   * refuse. The birth date must parse. The new account copies id, name,
   * address, birth date and gender; the request's allowNegativeBalance has
   * nowhere to go.
   */
  function Register(t: AccountTable, reg: AccountRegister, f: RegisterFaults): (r: Outcome<AccountTable, Account>)
    ensures r.result.Err? ==> r.store == t
    ensures f.lookup.None? && reg.id in t ==> r.result == Err(AlreadyExist(reg.id))
    ensures ParseDate(reg.birthDate).None? && !(f.lookup.None? && reg.id in t) ==>
              r.result == Err(DateParse(reg.birthDate))
    ensures !(f.lookup.None? && reg.id in t) && ParseDate(reg.birthDate).Some? && f.save.Some? ==>
              r.result == Err(f.save.value)
    ensures f.lookup.Some? && reg.id in t && ParseDate(reg.birthDate).Some? && f.save.None? ==>
              r.result == Err(NewAccountAlreadyExist(reg.id))
    ensures r.result.Ok? <==> reg.id !in t && ParseDate(reg.birthDate).Some? && f.save.None?
    ensures r.result.Ok? ==>
              && r.result.value == Account(reg.id, "", reg.name, reg.address,
                                           ParseDate(reg.birthDate).value, reg.gender)
              && r.store == t[reg.id := r.result.value]
              && r.store[reg.id] == r.result.value
  {
    if Find(t, reg.id, f.lookup).Ok? then
      Outcome(t, Err(AlreadyExist(reg.id)))
    else
      match ParseDate(reg.birthDate)
      case None => Outcome(t, Err(DateParse(reg.birthDate)))
      case Some(birthDate) =>
        var account := Account(reg.id, "", reg.name, reg.address, birthDate, reg.gender);
        match Insert(t, account.id, account, f.save)
        case Err(e) => Outcome(t, Err(e))
        case Ok(t') => Outcome(t', Ok(account))
  }

  /**
   * Once the lookup reports an error, Register no longer depends on why:
   * a failed lookup of an existing id still cannot create a second row,
   * because the model's Save refuses an existing key (with the
   * AlreadyExist error, which no Save in the Go code returns).
   */
  lemma RegisterAfterLookupError(t: AccountTable, reg: AccountRegister, e: Error, save: Option<Error>)
    requires ParseDate(reg.birthDate).Some? && save.None?
    ensures reg.id !in t ==>
              Register(t, reg, RegisterFaults(Some(e), save)) == Register(t, reg, RegisterFaults(None, save))
    ensures reg.id in t ==>
              Register(t, reg, RegisterFaults(Some(e), save)) == Outcome(t, Err(NewAccountAlreadyExist(reg.id)))
  {
  }

  /** The request's allowNegativeBalance never reaches the store or the result. */
  lemma RegisterIgnoresAllowNegative(t: AccountTable, reg: AccountRegister, f: RegisterFaults, b: bool)
    ensures Register(t, reg.(allowNegativeBalance := b), f) == Register(t, reg, f)
  {
  }

  /** The birth date an edit asks for, when it asks for one. */
  predicate ChangesBirthDate(edit: AccountEdit) {
    edit.birthDate.Some? && edit.birthDate.value != ""
  }

  function Choose<T>(patch: Option<T>, current: T): T {
    if patch.Some? then patch.value else current
  }

  /**
   * The in-memory patch Edit applies: every non-nil field is overwritten,
   * the birth date only when non-empty and only if it parses.
   */
  function Patch(a: Account, edit: AccountEdit): (r: Result<Account>)
    ensures r.Err? <==> ChangesBirthDate(edit) && ParseDate(edit.birthDate.value).None?
    ensures r.Err? ==> r.error == DateParse(edit.birthDate.value)
    ensures r.Ok? ==>
              && r.value.id == a.id && r.value.accountId == a.accountId
              && r.value.name == Choose(edit.name, a.name)
              && r.value.address == Choose(edit.address, a.address)
              && r.value.gender == Choose(edit.gender, a.gender)
              && r.value.birthDate ==
                 (if ChangesBirthDate(edit) then ParseDate(edit.birthDate.value).value else a.birthDate)
  {
    var patched := a.(name := Choose(edit.name, a.name),
                      address := Choose(edit.address, a.address),
                      gender := Choose(edit.gender, a.gender));
    if ChangesBirthDate(edit) then
      match ParseDate(edit.birthDate.value)
      case None => Err(DateParse(edit.birthDate.value))
      case Some(birthDate) => Ok(patched.(birthDate := birthDate))
    else
      Ok(patched)
  }

  /** Two edits in a row, as one edit: the later non-nil field wins. */
  function Merge(first: AccountEdit, second: AccountEdit): AccountEdit {
    AccountEdit(
      if second.name.Some? then second.name else first.name,
      if second.address.Some? then second.address else first.address,
      if ChangesBirthDate(second) then second.birthDate else first.birthDate,
      if second.gender.Some? then second.gender else first.gender,
      if second.allowNegativeBalance.Some? then second.allowNegativeBalance else first.allowNegativeBalance)
  }

  /** Applying two patches that both succeed is applying their merge. */
  lemma PatchCompose(a: Account, first: AccountEdit, second: AccountEdit)
    requires Patch(a, first).Ok? && Patch(Patch(a, first).value, second).Ok?
    ensures Patch(a, Merge(first, second)) == Patch(Patch(a, first).value, second)
  {
  }

  /** Re-applying an edit to its own result changes nothing. */
  lemma PatchIdempotent(a: Account, edit: AccountEdit)
    requires Patch(a, edit).Ok?
    ensures Patch(Patch(a, edit).value, edit) == Patch(a, edit)
  {
    PatchCompose(a, edit, edit);
    assert Merge(edit, edit) == edit;
  }

  /** An edit with every field nil, or only the ignored flag set, is the identity. */
  lemma EmptyPatchIsIdentity(a: Account, flag: Option<bool>, birthDate: Option<string>)
    requires birthDate.None? || birthDate == Some("")
    ensures Patch(a, AccountEdit(None, None, birthDate, None, flag)) == Ok(a)
  {
  }

  /**
   * Edit: a lookup error is returned as is; then the patch; then Update.
   * Nothing is written unless every step succeeds, and then only the
   * edited row changes.
   */
  function Edit(t: AccountTable, id: Id, edit: AccountEdit, f: EditFaults): (r: Outcome<AccountTable, Account>)
    ensures r.result.Err? ==> r.store == t
    ensures f.lookup.Some? ==> r.result == Err(f.lookup.value)
    ensures f.lookup.None? && id !in t ==> r.result == Err(NewAccountNotFound(id))
    ensures f.lookup.None? && id in t && Patch(t[id], edit).Err? ==> r.result == Patch(t[id], edit)
    ensures f.lookup.None? && id in t && Patch(t[id], edit).Ok? && f.update.Some? ==>
              r.result == Err(f.update.value)
    ensures r.result.Ok? <==> f.lookup.None? && id in t && Patch(t[id], edit).Ok? && f.update.None?
    ensures r.result.Ok? ==>
              && Patch(t[id], edit) == Ok(r.result.value)
              && r.store == t[id := r.result.value]
  {
    match Find(t, id, f.lookup)
    case Err(e) => Outcome(t, Err(e))
    case Ok(existing) =>
      match Patch(existing, edit)
      case Err(e) => Outcome(t, Err(e))
      case Ok(patched) =>
        match Replace(t, patched.id, patched, f.update)
        case Err(e) => Outcome(t, Err(e))
        case Ok(t') => Outcome(t', Ok(patched))
  }

  /** Running the same edit again on the edited store leaves it as it is. */
  lemma EditIdempotent(t: AccountTable, id: Id, edit: AccountEdit, f: EditFaults)
    requires Edit(t, id, edit, f).result.Ok?
    ensures var once := Edit(t, id, edit, f);
            Edit(once.store, id, edit, EditFaults(None, None)) == once
  {
    PatchIdempotent(t[id], edit);
    var once := Edit(t, id, edit, f);
    assert once.store[id] == once.result.value;
    assert once.store[id := once.result.value] == once.store;
  }
}
