/**
 * The transfer rules all three generations share: the request checks and
 * their order, the sufficiency rule, and how the ledger entry is built.
 */
module Transfers {

  import opened Optional
  import opened Errors
  import opened Decimal
  import opened Tables
  import opened Domain
  import opened Model

  /** The request checks, in the order the services apply them. */
  datatype Violation = EmptySource | EmptyDestination | NonPositiveAmount | SameAccount

  /**
   * The first check the request fails, or None: empty source id, then empty
   * destination id, then amount <= 0, then source == destination.
   */
  function Validate(req: AccountFundTransfer): (v: Option<Violation>)
    ensures v.None? <==>
              req.accountSrcId != "" && req.accountDstId != "" && req.amount > 0
              && req.accountSrcId != req.accountDstId
    ensures v == Some(EmptySource) <==> req.accountSrcId == ""
    ensures v == Some(EmptyDestination) <==> req.accountSrcId != "" && req.accountDstId == ""
    ensures v == Some(NonPositiveAmount) <==>
              req.accountSrcId != "" && req.accountDstId != "" && req.amount <= 0
    ensures v == Some(SameAccount) <==>
              req.accountSrcId != "" && req.accountDstId != "" && req.amount > 0
              && req.accountSrcId == req.accountDstId
  {
    if req.accountSrcId == "" then Some(EmptySource)
    else if req.accountDstId == "" then Some(EmptyDestination)
    else if req.amount <= 0 then Some(NonPositiveAmount)
    else if req.accountDstId == req.accountSrcId then Some(SameAccount)
    else None
  }

  /** `balance - amount < 0 && !allowNegativeBalance`: the refusal rule. */
  predicate Overdraws(balance: int, allowNegativeBalance: bool, amount: int) {
    balance - amount < 0 && !allowNegativeBalance
  }

  /**
   * A transfer the rule admits never takes a source that may not go
   * negative below zero, and admits any amount from one that may.
   */
  lemma OverdrawsMeans(balance: int, allowNegativeBalance: bool, amount: int)
    ensures !Overdraws(balance, allowNegativeBalance, amount) && !allowNegativeBalance
            ==> balance - amount >= 0
    ensures allowNegativeBalance ==> !Overdraws(balance, allowNegativeBalance, amount)
  {
  }

  /** The clock reading the Go code takes with time.Now(). */
  datatype Clock = Clock(nanosecond: nat, timestamp: int)

  /** src.ID + ":" + dst.ID + ":" + strconv.Itoa(time.Now().Nanosecond()). */
  function TransactionId(srcId: Id, dstId: Id, clock: Clock): (id: string)
    ensures |id| > |srcId| + |dstId| + 2
    ensures id[..|srcId|] == srcId
    ensures id[|srcId| + |dstId| + 2..] == Itoa(clock.nanosecond)
  {
    var id := srcId + ":" + dstId + ":" + Itoa(clock.nanosecond);
    assert id[|srcId| + |dstId| + 2..] == Itoa(clock.nanosecond);
    id
  }

  /**
   * The id is not unique: the ':' separator can be part of an account id,
   * so two different pairs of accounts read at the same nanosecond get
   * the same id.
   */
  lemma TransactionIdCollides(x: Id, y: Id, z: Id, c: Clock)
    ensures (x, y + ":" + z) != (x + ":" + y, z)
    ensures TransactionId(x, y + ":" + z, c) == TransactionId(x + ":" + y, z, c)
  {
    assert |x| < |x + ":" + y|;
    assert x + ":" + (y + ":" + z) == (x + ":" + y) + ":" + z;
  }

  function NewTransaction(srcId: Id, dstId: Id, amount: int, clock: Clock): (t: AccountTransaction)
    ensures t.accountSrcId == srcId && t.accountDstId == dstId && t.amount == amount
  {
    AccountTransaction(TransactionId(srcId, dstId, clock), clock.timestamp, amount, srcId, dstId)
  }

  /** The error a service returns for each refusal of its own. */
  datatype RejectErrors = RejectErrors(
    emptySource: Error,
    emptyDestination: Error,
    nonPositiveAmount: Error,
    sameAccount: Error,
    insufficient: Error)
  {
    function For(v: Violation): Error {
      match v
      case EmptySource => emptySource
      case EmptyDestination => emptyDestination
      case NonPositiveAmount => nonPositiveAmount
      case SameAccount => sameAccount
    }
  }

  /** The errors.New messages of the current service and its untyped predecessor. */
  const PlainErrors := RejectErrors(
    Plain("account src cannot be empty"),
    Plain("account dst cannot be empty"),
    Plain("invalid amount"),
    Plain("cannot transfer with same account"),
    Plain("insufficient amount"))

  /** Which repository calls of a transfer fail, in the order they are made. */
  datatype TransferFaults = TransferFaults(
    lookupSrc: Option<Error>,
    lookupDst: Option<Error>,
    save: Option<Error>,
    updateSrc: Option<Error>,
    updateDst: Option<Error>)
  {
    function WriteFaults(): seq<Option<Error>> {
      [save, updateSrc, updateDst]
    }
  }

  const NoFaults := TransferFaults(None, None, None, None, None)
}
