/**
 * The typed legacy transfer (pkg/accounttransaction/service.go): the same
 * non-atomic transfer, returning typed errors for its refusals. An empty
 * id is reported as a not-found error (code "76") whose "id" is the
 * refusal text.
 */
module AccountTransactionPackage {

  import opened Optional
  import opened Errors
  import opened Domain
  import opened Model
  import opened Transfers
  import LegacyTransfer
  import AccountTransactionServiceImpl

  const TypedErrors := RejectErrors(
    NewAccountNotFound("account src cannot be empty"),
    NewAccountNotFound("account dst cannot be empty"),
    InvalidAmount,
    InvalidAccount,
    InsufficientAmount)

  /**
   * Transfer. Each refusal is its typed error and leaves the store
   * untouched; success is as for the untyped copy.
   */
  function Transfer(db: LegacyTransfer.Db, req: AccountFundTransfer, clock: Clock, f: TransferFaults)
    : (r: Outcome<LegacyTransfer.Db, AccountTransaction>)
    ensures req.accountSrcId == "" ==>
              r == Outcome(db, Err(NewAccountNotFound("account src cannot be empty")))
    ensures req.accountSrcId != "" && req.accountDstId == "" ==>
              r == Outcome(db, Err(NewAccountNotFound("account dst cannot be empty")))
    ensures req.accountSrcId != "" && req.accountDstId != "" && req.amount <= 0 ==>
              r == Outcome(db, Err(InvalidAmount))
    ensures req.accountSrcId != "" && req.accountDstId != "" && req.amount > 0
            && req.accountSrcId == req.accountDstId ==>
              r == Outcome(db, Err(InvalidAccount))
    ensures Validate(req).None? && f.lookupSrc.None? && f.lookupDst.None?
            && req.accountSrcId in db.accounts && req.accountDstId in db.accounts
            && Overdraws(db.accounts[req.accountSrcId].balance,
                         db.accounts[req.accountSrcId].allowNegativeBalance, req.amount) ==>
              r == Outcome(db, Err(InsufficientAmount))
    ensures r.result.Ok? <==>
              LegacyTransfer.Admitted(db, req, f) && f.save.None? && f.updateSrc.None? && f.updateDst.None?
  {
    LegacyTransfer.Transfer(db, req, clock, f, TypedErrors)
  }

  /**
   * What a client sees for an empty id: code "76" and the refusal text
   * where the account id would go, e.g.
   * "Account with IDaccount src cannot be empty not found".
   */
  lemma EmptyIdMessages(db: LegacyTransfer.Db, req: AccountFundTransfer, clock: Clock, f: TransferFaults)
    requires req.accountSrcId == "" || req.accountDstId == ""
    ensures var e := Transfer(db, req, clock, f).result.error;
            && e.Endpoint? && e.endpoint.errorCode == NotFoundCode
            && IdBetween(e.endpoint.Error(), NotFoundSuffix)
               == Some(if req.accountSrcId == "" then "account src cannot be empty" else "account dst cannot be empty")
  {
    IdBetweenOf(if req.accountSrcId == "" then "account src cannot be empty" else "account dst cannot be empty",
                NotFoundSuffix);
  }

  /**
   * The typed and untyped copies differ only in the error a refusal
   * returns: they leave the same store in every case, and return the same
   * result whenever the request is not refused by the service itself.
   */
  lemma SameAsUntyped(db: LegacyTransfer.Db, req: AccountFundTransfer, clock: Clock, f: TransferFaults)
    ensures Transfer(db, req, clock, f).store == AccountTransactionServiceImpl.Transfer(db, req, clock, f).store
    ensures Transfer(db, req, clock, f).result.Ok?
            <==> AccountTransactionServiceImpl.Transfer(db, req, clock, f).result.Ok?
    ensures LegacyTransfer.Admitted(db, req, f) || (Validate(req).None? && (f.lookupSrc.Some? || f.lookupDst.Some?
              || req.accountSrcId !in db.accounts || req.accountDstId !in db.accounts)) ==>
              Transfer(db, req, clock, f).result == AccountTransactionServiceImpl.Transfer(db, req, clock, f).result
  {
  }

  /** Example: A (100000, may not go negative) asked for 1000000 is refused, nothing moves. */
  lemma ExampleInsufficient(db: LegacyTransfer.Db, clock: Clock)
    requires "A" in db.accounts && "B" in db.accounts
    requires db.accounts["A"].balance == 100000 && !db.accounts["A"].allowNegativeBalance
    ensures Transfer(db, AccountFundTransfer("B", "A", 1000000), clock, NoFaults) == Outcome(db, Err(InsufficientAmount))
  {
  }
}
