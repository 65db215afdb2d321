/**
 * The current generation's balance and ledger repositories
 * (pkg/repository/accountRepository.go, accountTransactionRepository.go),
 * and the writes a transfer makes through them.
 */
module Repository {

  import opened Optional
  import opened Errors
  import opened Tables
  import opened Domain

  /** FindAndLockAccountBalance: the balance row of the account, or the lookup's error. */
  function FindAndLockAccountBalance(db: Db, accountId: Id, fault: Option<Error>): (r: Result<AccountBalance>)
    ensures r.Ok? <==> fault.None? && accountId in db.balances
    ensures r.Ok? ==> r.value == db.balances[accountId] && r.value.id == accountId
    ensures fault.Some? ==> r == Err(fault.value)
    ensures fault.None? && accountId !in db.balances ==> r == Err(NewAccountNotFound(accountId))
  {
    Find(db.balances, accountId, fault)
  }

  /** UpdateBalance: overwrites the row with the same id; nothing else changes. */
  function UpdateBalance(db: Db, b: AccountBalance, fault: Option<Error>): (r: Result<Db>)
    ensures r.Ok? <==> fault.None? && b.id in db.balances
    ensures fault.Some? ==> r == Err(fault.value)
    ensures r.Ok? ==>
              && r.value.balances == db.balances[b.id := b] && r.value.balances.Keys == db.balances.Keys
              && r.value.accounts == db.accounts && r.value.ledger == db.ledger
  {
    match Replace(db.balances, b.id, b, fault)
    case Err(e) => Err(e)
    case Ok(t) => Ok(db.(balances := t))
  }

  /** AccountTransactionRepository.Save: appends to the ledger. */
  function SaveTransaction(db: Db, trx: AccountTransaction, fault: Option<Error>): (r: Result<Db>)
    ensures r.Ok? <==> fault.None?
    ensures fault.Some? ==> r == Err(fault.value)
    ensures r.Ok? ==>
              && r.value.ledger == db.ledger + [trx]
              && r.value.balances == db.balances && r.value.accounts == db.accounts
  {
    if fault.Some? then Err(fault.value) else Ok(db.(ledger := db.ledger + [trx]))
  }

  /** One write of a transfer. */
  datatype Write = SaveEntry(trx: AccountTransaction) | PutBalance(balance: AccountBalance)

  function Apply(db: Db, w: Write): Db {
    match w
    case SaveEntry(trx) => db.(ledger := db.ledger + [trx])
    case PutBalance(b) => db.(balances := db.balances[b.id := b])
  }

  /**
   * A write applied by the transfer's runner is what the repository call
   * does when it does not fail and the row it updates exists, which holds
   * for both balance rows a transfer has just read.
   */
  lemma ApplyIsRepositoryCall(db: Db, w: Write)
    ensures w.SaveEntry? ==> SaveTransaction(db, w.trx, None) == Ok(Apply(db, w))
    ensures w.PutBalance? && w.balance.id in db.balances ==>
              UpdateBalance(db, w.balance, None) == Ok(Apply(db, w))
  {
  }
}
