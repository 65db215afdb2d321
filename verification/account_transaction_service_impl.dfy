/**
 * The untyped legacy transfer
 * (pkg/accounttransaction/service/accountTransactionServiceImpl.go): the
 * non-atomic transfer with errors.New messages for its refusals.
 */
module AccountTransactionServiceImpl {

  import opened Errors
  import opened Domain
  import opened Model
  import opened Transfers
  import LegacyTransfer

  /**
   * Transfer. Each refusal is a plain error with the Go code's message and
   * leaves the store untouched; the transfer succeeds exactly when the
   * request is admitted and none of the three writes fails, and then it
   * moves `amount` from the source to the destination.
   */
  function Transfer(db: LegacyTransfer.Db, req: AccountFundTransfer, clock: Clock, f: TransferFaults)
    : (r: Outcome<LegacyTransfer.Db, AccountTransaction>)
    ensures req.accountSrcId == "" ==> r == Outcome(db, Err(Plain("account src cannot be empty")))
    ensures req.accountSrcId != "" && req.accountDstId == "" ==>
              r == Outcome(db, Err(Plain("account dst cannot be empty")))
    ensures req.accountSrcId != "" && req.accountDstId != "" && req.amount <= 0 ==>
              r == Outcome(db, Err(Plain("invalid amount")))
    ensures req.accountSrcId != "" && req.accountDstId != "" && req.amount > 0
            && req.accountSrcId == req.accountDstId ==>
              r == Outcome(db, Err(Plain("cannot transfer with same account")))
    ensures Validate(req).None? && f.lookupSrc.None? && f.lookupDst.None?
            && req.accountSrcId in db.accounts && req.accountDstId in db.accounts
            && Overdraws(db.accounts[req.accountSrcId].balance,
                         db.accounts[req.accountSrcId].allowNegativeBalance, req.amount) ==>
              r == Outcome(db, Err(Plain("insufficient amount")))
    ensures r.store.accounts.Keys == db.accounts.Keys
    ensures r.result.Ok? <==>
              LegacyTransfer.Admitted(db, req, f) && f.save.None? && f.updateSrc.None? && f.updateDst.None?
    ensures r.result.Ok? ==>
              && r.result.value.accountSrcId == req.accountSrcId
              && r.result.value.accountDstId == req.accountDstId
              && r.result.value.amount == req.amount
              && r.store.ledger == db.ledger + [r.result.value]
              && r.store.accounts[req.accountSrcId].balance == db.accounts[req.accountSrcId].balance - req.amount
              && r.store.accounts[req.accountDstId].balance == db.accounts[req.accountDstId].balance + req.amount
  {
    LegacyTransfer.Transfer(db, req, clock, f, PlainErrors)
  }

  /** Example: A (balance 0, may go negative) sends 5000 to B and ends at -5000. */
  lemma ExampleOverdraft(db: LegacyTransfer.Db, clock: Clock)
    requires "A" in db.accounts && "B" in db.accounts
    requires db.accounts["A"].balance == 0 && db.accounts["A"].allowNegativeBalance
    ensures var r := Transfer(db, AccountFundTransfer("B", "A", 5000), clock, NoFaults);
            && r.result.Ok?
            && r.store.accounts["A"].balance == -5000
            && r.store.accounts["B"].balance == db.accounts["B"].balance + 5000
  {
  }
}
