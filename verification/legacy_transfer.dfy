/**
 * The transfer of the two older generations
 * (pkg/accounttransaction/service/accountTransactionServiceImpl.go and
 * pkg/accounttransaction/service.go). Both read the balance from the
 * account record itself and make their three writes one after another
 * with no transaction around them, so a failing write leaves the earlier
 * ones in place. The two copies differ only in the errors they return for
 * their own refusals, which are a parameter here.
 */
module LegacyTransfer {

  import opened Optional
  import opened Errors
  import opened Tables
  import opened Domain
  import opened Model
  import opened Transfers
  import opened UnitOfWork
  import AccountPackage

  /** The accounts table (with balances) and the ledger of the older generations. */
  datatype Db = Db(accounts: AccountPackage.AccountTable, ledger: seq<AccountTransaction>)

  /** One write of a transfer: the ledger Save or an account Update. */
  datatype Write = SaveEntry(trx: AccountTransaction) | PutAccount(account: AccountPackage.Account)

  function Apply(db: Db, w: Write): Db {
    match w
    case SaveEntry(trx) => db.(ledger := db.ledger + [trx])
    case PutAccount(a) => db.(accounts := db.accounts[a.id := a])
  }

  /** The three writes, in the order the service makes them. */
  function Writes(trx: AccountTransaction, src: AccountPackage.Account, dst: AccountPackage.Account, amount: int)
    : seq<Write>
  {
    [SaveEntry(trx),
     PutAccount(src.(balance := src.balance - amount)),
     PutAccount(dst.(balance := dst.balance + amount))]
  }

  /** The request passes its checks, both accounts are read and the rule admits it. */
  predicate Admitted(db: Db, req: AccountFundTransfer, f: TransferFaults) {
    && Validate(req).None?
    && f.lookupSrc.None? && req.accountSrcId in db.accounts
    && f.lookupDst.None? && req.accountDstId in db.accounts
    && !Overdraws(db.accounts[req.accountSrcId].balance,
                  db.accounts[req.accountSrcId].allowNegativeBalance, req.amount)
  }

  /** The source account after the debit. */
  function Debited(db: Db, req: AccountFundTransfer): AccountPackage.Account
    requires req.accountSrcId in db.accounts
  {
    db.accounts[req.accountSrcId].(balance := db.accounts[req.accountSrcId].balance - req.amount)
  }

  /** The destination account after the credit. */
  function Credited(db: Db, req: AccountFundTransfer): AccountPackage.Account
    requires req.accountDstId in db.accounts
  {
    db.accounts[req.accountDstId].(balance := db.accounts[req.accountDstId].balance + req.amount)
  }

  /**
   * Transfer with the given refusal errors. Errors come in a fixed order:
   * the request checks, the source lookup, the destination lookup and the
   * sufficiency rule leave the store as it was. After that the writes are
   * not atomic: a failing ledger Save changes nothing, a failing source
   * Update leaves the ledger entry behind, a failing destination Update
   * leaves the entry and the debit behind. Success appends the entry,
   * debits the source, credits the destination and changes nothing else.
   */
  function Transfer(db: Db, req: AccountFundTransfer, clock: Clock, f: TransferFaults, errors: RejectErrors)
    : (r: Outcome<Db, AccountTransaction>)
    ensures Validate(req).Some? ==> r == Outcome(db, Err(errors.For(Validate(req).value)))
    ensures Validate(req).None? && f.lookupSrc.Some? ==> r == Outcome(db, Err(f.lookupSrc.value))
    ensures Validate(req).None? && f.lookupSrc.None? && req.accountSrcId !in db.accounts ==>
              r == Outcome(db, Err(NewAccountNotFound(req.accountSrcId)))
    ensures Validate(req).None? && f.lookupSrc.None? && req.accountSrcId in db.accounts ==>
              && (f.lookupDst.Some? ==> r == Outcome(db, Err(f.lookupDst.value)))
              && (f.lookupDst.None? && req.accountDstId !in db.accounts ==>
                    r == Outcome(db, Err(NewAccountNotFound(req.accountDstId))))
    ensures Validate(req).None? && f.lookupSrc.None? && f.lookupDst.None?
            && req.accountSrcId in db.accounts && req.accountDstId in db.accounts
            && Overdraws(db.accounts[req.accountSrcId].balance,
                         db.accounts[req.accountSrcId].allowNegativeBalance, req.amount) ==>
              r == Outcome(db, Err(errors.insufficient))
    ensures Admitted(db, req, f) ==>
              var src, dst := req.accountSrcId, req.accountDstId;
              var trx := NewTransaction(src, dst, req.amount, clock);
              && (f.save.Some? ==> r == Outcome(db, Err(f.save.value)))
              && (f.save.None? ==> r.store.ledger == db.ledger + [trx])
              && (f.save.None? && f.updateSrc.Some? ==>
                    r.result == Err(f.updateSrc.value) && r.store.accounts == db.accounts)
              && (f.save.None? && f.updateSrc.None? && f.updateDst.Some? ==>
                    r.result == Err(f.updateDst.value)
                    && r.store.accounts == db.accounts[src := Debited(db, req)])
              && (f.save.None? && f.updateSrc.None? && f.updateDst.None? ==>
                    r.result == Ok(trx)
                    && r.store.accounts == db.accounts[src := Debited(db, req)][dst := Credited(db, req)])
    ensures r.result.Ok? <==> Admitted(db, req, f) && f.save.None? && f.updateSrc.None? && f.updateDst.None?
    ensures r.store.accounts.Keys == db.accounts.Keys
  {
    match Validate(req)
    case Some(v) => Outcome(db, Err(errors.For(v)))
    case None =>
      match Find(db.accounts, req.accountSrcId, f.lookupSrc)
      case Err(e) => Outcome(db, Err(e))
      case Ok(src) =>
        match Find(db.accounts, req.accountDstId, f.lookupDst)
        case Err(e) => Outcome(db, Err(e))
        case Ok(dst) =>
          if Overdraws(src.balance, src.allowNegativeBalance, req.amount) then
            Outcome(db, Err(errors.insufficient))
          else
            var trx := NewTransaction(src.id, dst.id, req.amount, clock);
            var w := Writes(trx, src, dst, req.amount);
            RunThree(db, w[0], w[1], w[2], f.save, f.updateSrc, f.updateDst, Apply);
            var run := RunWrites(db, w, f.WriteFaults(), Apply);
            Outcome(run.0, if run.1.Some? then Err(run.1.value) else Ok(trx))
  }

  /** The sum of the two balances a successful transfer touches is unchanged. */
  lemma TransferConserves(db: Db, req: AccountFundTransfer, clock: Clock, f: TransferFaults, errors: RejectErrors)
    requires Transfer(db, req, clock, f, errors).result.Ok?
    ensures var after := Transfer(db, req, clock, f, errors).store.accounts;
            after[req.accountSrcId].balance + after[req.accountDstId].balance
            == db.accounts[req.accountSrcId].balance + db.accounts[req.accountDstId].balance
  {
  }

  /**
   * Money is lost when the last write fails: the ledger records the
   * transfer and the source is debited, but the destination is not
   * credited, so the two balances lose `amount` while the ledger says it
   * moved.
   */
  lemma LostCredit(db: Db, req: AccountFundTransfer, clock: Clock, errors: RejectErrors, e: Error)
    requires Admitted(db, req, TransferFaults(None, None, None, None, Some(e)))
    ensures var r := Transfer(db, req, clock, TransferFaults(None, None, None, None, Some(e)), errors);
            && r.result == Err(e)
            && |r.store.ledger| == |db.ledger| + 1
            && r.store.accounts[req.accountSrcId].balance + r.store.accounts[req.accountDstId].balance
               == db.accounts[req.accountSrcId].balance + db.accounts[req.accountDstId].balance - req.amount
  {
  }

  /** No account that may not go negative is negative. */
  predicate Solvent(db: Db) {
    forall id | id in db.accounts :: !db.accounts[id].allowNegativeBalance ==> db.accounts[id].balance >= 0
  }

  /** Every transfer, whichever write fails, keeps the store solvent. */
  lemma TransferKeepsSolvent(db: Db, req: AccountFundTransfer, clock: Clock, f: TransferFaults, errors: RejectErrors)
    requires Solvent(db)
    ensures Solvent(Transfer(db, req, clock, f, errors).store)
  {
    var r := Transfer(db, req, clock, f, errors);
    if Admitted(db, req, f) {
      forall id | id in r.store.accounts && !r.store.accounts[id].allowNegativeBalance
        ensures r.store.accounts[id].balance >= 0
      {
        assert id in db.accounts;
        if id == req.accountSrcId {
          assert !Overdraws(db.accounts[id].balance, db.accounts[id].allowNegativeBalance, req.amount);
        }
      }
    }
  }
}
