/**
 * The oldest account package (pkg/account/model.go, pkg/account/service.go):
 * the account record still carries the balance, the birth date is
 * optional, and Edit overwrites every field except the birth date.
 */
module AccountPackage {

  import opened Optional
  import opened Errors
  import opened Dates
  import opened Tables
  import AccountRules

  /** account.Account. */
  datatype Account = Account(
    id: Id,
    name: string,
    address: string,
    birthDate: Option<Date>,
    gender: bool,
    balance: int,
    allowNegativeBalance: bool)

  /** account.Register. */
  datatype RegisterRequest = RegisterRequest(
    id: Id,
    name: string,
    address: string,
    birthDate: string,
    gender: bool,
    allowNegativeBalance: bool)

  /** account.Edit: no optional fields; the id names the account. */
  datatype EditRequest = EditRequest(
    id: Id,
    name: string,
    address: string,
    birthDate: string,
    gender: bool,
    allowNegativeBalance: bool)

  predicate Keyed(t: map<Id, Account>) {
    forall k | k in t :: t[k].id == k
  }

  type AccountTable = t: map<Id, Account> | Keyed(t) witness map[]

  /** An empty date means "no birth date"; any other text must parse. */
  function OptionalDate(s: string): (r: Result<Option<Date>>)
    ensures r.Ok? <==> s == "" || ParseDate(s).Some?
    ensures r == Ok(None) <==> s == ""
    ensures r.Err? ==> r.error == DateParse(s)
    ensures s != "" && r.Ok? ==> r.value == ParseDate(s)
  {
    if s == "" then Ok(None)
    else match ParseDate(s)
      case None => Err(DateParse(s))
      case Some(d) => Ok(Some(d))
  }

  /**
   * Register: an id the lookup finds is refused with AlreadyExist (code
   * "68"); the optional birth date must parse when given; the new account
   * starts at balance 0 and copies allowNegativeBalance from the request.
   */
  function Register(t: AccountTable, reg: RegisterRequest, f: AccountRules.RegisterFaults)
    : (r: Outcome<AccountTable, Account>)
    ensures r.result.Err? ==> r.store == t
    ensures f.lookup.None? && reg.id in t ==> r.result == Err(NewAccountAlreadyExist(reg.id))
    ensures !(f.lookup.None? && reg.id in t) && OptionalDate(reg.birthDate).Err? ==>
              r.result == Err(DateParse(reg.birthDate))
    ensures !(f.lookup.None? && reg.id in t) && OptionalDate(reg.birthDate).Ok? && f.save.Some? ==>
              r.result == Err(f.save.value)
    ensures f.lookup.Some? && reg.id in t && OptionalDate(reg.birthDate).Ok? && f.save.None? ==>
              r.result == Err(NewAccountAlreadyExist(reg.id))
    ensures r.result.Ok? <==> reg.id !in t && OptionalDate(reg.birthDate).Ok? && f.save.None?
    ensures r.result.Ok? ==>
              && r.result.value == Account(reg.id, reg.name, reg.address, OptionalDate(reg.birthDate).value,
                                           reg.gender, 0, reg.allowNegativeBalance)
              && r.store == t[reg.id := r.result.value]
  {
    if Find(t, reg.id, f.lookup).Ok? then
      Outcome(t, Err(NewAccountAlreadyExist(reg.id)))
    else
      match OptionalDate(reg.birthDate)
      case Err(e) => Outcome(t, Err(e))
      case Ok(birthDate) =>
        var account := Account(reg.id, reg.name, reg.address, birthDate, reg.gender, 0, reg.allowNegativeBalance);
        match Insert(t, account.id, account, f.save)
        case Err(e) => Outcome(t, Err(e))
        case Ok(t') => Outcome(t', Ok(account))
  }

  /**
   * A registered account reads back as registered, and registering the
   * same id again, with the lookup working, is refused with AlreadyExist.
   */
  lemma RegisterReadBack(t: AccountTable, reg: RegisterRequest, f: AccountRules.RegisterFaults,
                         again: RegisterRequest, g: AccountRules.RegisterFaults)
    requires Register(t, reg, f).result.Ok?
    requires again.id == reg.id && g.lookup.None?
    ensures var once := Register(t, reg, f);
            && Find(once.store, reg.id, None) == Ok(once.result.value)
            && Register(once.store, again, g) == Outcome(once.store, Err(NewAccountAlreadyExist(reg.id)))
  {
    var once := Register(t, reg, f);
    assert reg.id in once.store;
  }

  /** The account as Edit rewrites it, before Update. */
  function Overwrite(a: Account, edit: EditRequest): (r: Result<Account>)
    ensures r.Err? <==> OptionalDate(edit.birthDate).Err?
    ensures r.Ok? ==>
              && r.value.id == a.id && r.value.balance == a.balance
              && r.value.name == edit.name && r.value.address == edit.address
              && r.value.gender == edit.gender && r.value.allowNegativeBalance == edit.allowNegativeBalance
              && r.value.birthDate == (if edit.birthDate == "" then a.birthDate
                                       else Some(ParseDate(edit.birthDate).value))
  {
    var rewritten := a.(name := edit.name, allowNegativeBalance := edit.allowNegativeBalance,
                        address := edit.address, gender := edit.gender);
    if edit.birthDate != "" then
      match ParseDate(edit.birthDate)
      case None => Err(DateParse(edit.birthDate))
      case Some(d) => Ok(rewritten.(birthDate := Some(d)))
    else
      Ok(rewritten)
  }

  /**
   * Edit: a lookup error is returned as is; name, flag, address and gender
   * are overwritten unconditionally, the birth date only when given and
   * valid; the balance is never touched. Nothing is written on any error.
   */
  function Edit(t: AccountTable, edit: EditRequest, f: AccountRules.EditFaults): (r: Outcome<AccountTable, Account>)
    ensures r.result.Err? ==> r.store == t
    ensures f.lookup.Some? ==> r.result == Err(f.lookup.value)
    ensures f.lookup.None? && edit.id !in t ==> r.result == Err(NewAccountNotFound(edit.id))
    ensures f.lookup.None? && edit.id in t && OptionalDate(edit.birthDate).Err? ==>
              r.result == Err(DateParse(edit.birthDate))
    ensures f.lookup.None? && edit.id in t && OptionalDate(edit.birthDate).Ok? && f.update.Some? ==>
              r.result == Err(f.update.value)
    ensures r.result.Ok? <==> f.lookup.None? && edit.id in t && OptionalDate(edit.birthDate).Ok? && f.update.None?
    ensures r.result.Ok? ==>
              && Overwrite(t[edit.id], edit) == Ok(r.result.value)
              && r.store == t[edit.id := r.result.value]
  {
    match Find(t, edit.id, f.lookup)
    case Err(e) => Outcome(t, Err(e))
    case Ok(existing) =>
      match Overwrite(existing, edit)
      case Err(e) => Outcome(t, Err(e))
      case Ok(rewritten) =>
        match Replace(t, rewritten.id, rewritten, f.update)
        case Err(e) => Outcome(t, Err(e))
        case Ok(t') => Outcome(t', Ok(rewritten))
  }

  /** Edit is idempotent: repeating it on its own result rewrites nothing. */
  lemma EditIdempotent(t: AccountTable, edit: EditRequest, f: AccountRules.EditFaults)
    requires Edit(t, edit, f).result.Ok?
    ensures var once := Edit(t, edit, f);
            Edit(once.store, edit, AccountRules.EditFaults(None, None)) == once
  {
    var once := Edit(t, edit, f);
    assert once.store[edit.id] == once.result.value;
    assert once.store[edit.id := once.result.value] == once.store;
  }

  /** Edit never changes how much money an account holds. */
  lemma EditKeepsBalance(t: AccountTable, edit: EditRequest, f: AccountRules.EditFaults)
    ensures forall id | id in t :: id in Edit(t, edit, f).store && Edit(t, edit, f).store[id].balance == t[id].balance
  {
  }
}
