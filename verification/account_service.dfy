/**
 * The current AccountService (pkg/service/accountService.go): Register and
 * Edit on the full store. Both touch only the account table; the balance
 * pass-throughs are the Repository operations.
 */
module AccountService {

  import opened Errors
  import opened Tables
  import opened Domain
  import opened Model
  import AccountRules

  /**
   * Register: refuses an id the lookup finds, refuses a malformed birth
   * date, and otherwise saves the new account. No balance row is created
   * and the ledger is untouched.
   */
  function Register(db: Db, reg: AccountRegister, f: AccountRules.RegisterFaults): (r: Outcome<Db, Account>)
    ensures r.store.balances == db.balances && r.store.ledger == db.ledger
    ensures r.result.Err? ==> r.store == db
    ensures r.result.Ok? ==>
              && reg.id !in db.accounts
              && r.result.value.id == reg.id
              && r.store.accounts == db.accounts[reg.id := r.result.value]
  {
    var o := AccountRules.Register(db.accounts, reg, f);
    Outcome(db.(accounts := o.store), o.result)
  }

  /**
   * Edit: writes back the patched account under `id` and nothing else, or
   * writes nothing at all.
   */
  function Edit(db: Db, id: Id, edit: AccountEdit, f: AccountRules.EditFaults): (r: Outcome<Db, Account>)
    ensures r.store.balances == db.balances && r.store.ledger == db.ledger
    ensures r.result.Err? ==> r.store == db
    ensures r.result.Ok? ==>
              && id in db.accounts
              && AccountRules.Patch(db.accounts[id], edit) == Ok(r.result.value)
              && r.store.accounts == db.accounts[id := r.result.value]
  {
    var o := AccountRules.Edit(db.accounts, id, edit, f);
    Outcome(db.(accounts := o.store), o.result)
  }
}
