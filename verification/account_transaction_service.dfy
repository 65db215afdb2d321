/**
 * The current transfer (pkg/service/accountTransactionService.go): the
 * request checks, then a callback run by the transaction manager that
 * locks and reads both balances, applies the sufficiency rule and makes
 * three writes (ledger entry, source balance, destination balance).
 */
module AccountTransactionService {

  import opened Optional
  import opened Errors
  import opened Tables
  import opened Domain
  import opened Model
  import opened Transfers
  import opened UnitOfWork
  import opened Repository

  /** The three writes of a transfer, in order. */
  function Writes(trx: AccountTransaction, src: AccountBalance, dst: AccountBalance, amount: int): seq<Write> {
    [SaveEntry(trx),
     PutBalance(src.(balance := src.balance - amount)),
     PutBalance(dst.(balance := dst.balance + amount))]
  }

  /** The closure handed to the transaction manager. */
  function Callback(db: Db, req: AccountFundTransfer, clock: Clock, f: TransferFaults)
    : (r: Outcome<Db, AccountTransaction>)
    ensures r.store.accounts == db.accounts
    ensures f.lookupSrc.Some? ==> r == Outcome(db, Err(f.lookupSrc.value))
    ensures f.lookupSrc.None? && req.accountSrcId in db.balances && f.lookupDst.Some? ==>
              r == Outcome(db, Err(f.lookupDst.value))
    ensures r.result.Ok? <==>
              && f.lookupSrc.None? && req.accountSrcId in db.balances
              && f.lookupDst.None? && req.accountDstId in db.balances
              && !Overdraws(db.balances[req.accountSrcId].balance,
                            db.balances[req.accountSrcId].allowNegativeBalance, req.amount)
              && f.save.None? && f.updateSrc.None? && f.updateDst.None?
    ensures r.result.Ok? ==> r.result.value == NewTransaction(req.accountSrcId, req.accountDstId, req.amount, clock)
  {
    match FindAndLockAccountBalance(db, req.accountSrcId, f.lookupSrc)
    case Err(e) => Outcome(db, Err(e))
    case Ok(src) =>
      match FindAndLockAccountBalance(db, req.accountDstId, f.lookupDst)
      case Err(e) => Outcome(db, Err(e))
      case Ok(dst) =>
        if Overdraws(src.balance, src.allowNegativeBalance, req.amount) then
          Outcome(db, Err(PlainErrors.insufficient))
        else
          var trx := NewTransaction(src.id, dst.id, req.amount, clock);
          var w := Writes(trx, src, dst, req.amount);
          RunThree(db, w[0], w[1], w[2], f.save, f.updateSrc, f.updateDst, Apply);
          var run := RunWrites(db, w, f.WriteFaults(), Apply);
          Outcome(run.0, if run.1.Some? then Err(run.1.value) else Ok(trx))
  }

  /** The request passes its checks, both rows are read and the rule admits it. */
  predicate Admitted(db: Db, req: AccountFundTransfer, f: TransferFaults) {
    && Validate(req).None?
    && f.lookupSrc.None? && req.accountSrcId in db.balances
    && f.lookupDst.None? && req.accountDstId in db.balances
    && !Overdraws(db.balances[req.accountSrcId].balance,
                  db.balances[req.accountSrcId].allowNegativeBalance, req.amount)
  }

  /** What a transfer that reaches the writes returns: the first failure, or the entry. */
  function WriteResult(req: AccountFundTransfer, clock: Clock, f: TransferFaults, commit: Option<Error>)
    : Result<AccountTransaction>
  {
    if f.save.Some? then Err(f.save.value)
    else if f.updateSrc.Some? then Err(f.updateSrc.value)
    else if f.updateDst.Some? then Err(f.updateDst.value)
    else if commit.Some? then Err(commit.value)
    else Ok(NewTransaction(req.accountSrcId, req.accountDstId, req.amount, clock))
  }

  /**
   * Transfer. Errors come in a fixed order: the request checks (touching
   * nothing), the source lookup, the destination lookup, the sufficiency
   * rule, then the three writes and the commit. Any error leaves the store
   * exactly as it was; success appends one ledger entry carrying the
   * request's ids and amount, debits the source and credits the destination
   * by the amount, and changes nothing else.
   */
  function Transfer(db: Db, req: AccountFundTransfer, clock: Clock, f: TransferFaults, commit: Option<Error>)
    : (r: Outcome<Db, AccountTransaction>)
    ensures Validate(req).Some? ==> r == Outcome(db, Err(PlainErrors.For(Validate(req).value)))
    ensures r.result.Err? ==> r.store == db
    ensures Validate(req).None? && f.lookupSrc.Some? ==> r.result == Err(f.lookupSrc.value)
    ensures Validate(req).None? && f.lookupSrc.None? && req.accountSrcId !in db.balances ==>
              r.result == Err(NewAccountNotFound(req.accountSrcId))
    ensures Validate(req).None? && f.lookupSrc.None? && req.accountSrcId in db.balances ==>
              && (f.lookupDst.Some? ==> r.result == Err(f.lookupDst.value))
              && (f.lookupDst.None? && req.accountDstId !in db.balances ==>
                    r.result == Err(NewAccountNotFound(req.accountDstId)))
    ensures Validate(req).None? && f.lookupSrc.None? && f.lookupDst.None?
            && req.accountSrcId in db.balances && req.accountDstId in db.balances
            && Overdraws(db.balances[req.accountSrcId].balance,
                         db.balances[req.accountSrcId].allowNegativeBalance, req.amount) ==>
              r.result == Err(Plain("insufficient amount"))
    ensures Admitted(db, req, f) ==> r.result == WriteResult(req, clock, f, commit)
    ensures r.result.Ok? <==>
              Admitted(db, req, f) && f.save.None? && f.updateSrc.None? && f.updateDst.None? && commit.None?
    ensures r.result.Ok? ==>
              var src, dst := req.accountSrcId, req.accountDstId;
              && r.result.value.amount == req.amount
              && r.result.value.accountSrcId == src && r.result.value.accountDstId == dst
              && r.store.ledger == db.ledger + [r.result.value]
              && r.store.accounts == db.accounts
              && r.store.balances.Keys == db.balances.Keys
              && r.store.balances[src] == db.balances[src].(balance := db.balances[src].balance - req.amount)
              && r.store.balances[dst] == db.balances[dst].(balance := db.balances[dst].balance + req.amount)
              && (forall id | id in db.balances && id != src && id != dst ::
                    r.store.balances[id] == db.balances[id])
  {
    match Validate(req)
    case Some(v) => Outcome(db, Err(PlainErrors.For(v)))
    case None =>
      CallbackWrites(db, req, clock, f);
      Transaction(db, Callback(db, req, clock, f), commit)
  }

  /** The store and result the callback leaves, write by write. */
  lemma CallbackWrites(db: Db, req: AccountFundTransfer, clock: Clock, f: TransferFaults)
    requires Validate(req).None?
    ensures Admitted(db, req, f) ==>
              var src, dst := db.balances[req.accountSrcId], db.balances[req.accountDstId];
              var trx := NewTransaction(req.accountSrcId, req.accountDstId, req.amount, clock);
              var w := Writes(trx, src, dst, req.amount);
              var logged := Apply(db, w[0]);
              var debited := Apply(logged, w[1]);
              Callback(db, req, clock, f) ==
                if f.save.Some? then Outcome(db, Err(f.save.value))
                else if f.updateSrc.Some? then Outcome(logged, Err(f.updateSrc.value))
                else if f.updateDst.Some? then Outcome(debited, Err(f.updateDst.value))
                else Outcome(Apply(debited, w[2]), Ok(trx))
  {
    if Admitted(db, req, f) {
      var src, dst := db.balances[req.accountSrcId], db.balances[req.accountDstId];
      var trx := NewTransaction(req.accountSrcId, req.accountDstId, req.amount, clock);
      var w := Writes(trx, src, dst, req.amount);
      RunThree(db, w[0], w[1], w[2], f.save, f.updateSrc, f.updateDst, Apply);
    }
  }

  /** The sum of the two balances a successful transfer touches is unchanged. */
  lemma TransferConserves(db: Db, req: AccountFundTransfer, clock: Clock, f: TransferFaults, commit: Option<Error>)
    requires Transfer(db, req, clock, f, commit).result.Ok?
    ensures var after := Transfer(db, req, clock, f, commit).store.balances;
            after[req.accountSrcId].balance + after[req.accountDstId].balance
            == db.balances[req.accountSrcId].balance + db.balances[req.accountDstId].balance
  {
  }

  /** No row that may not go negative is negative. */
  predicate Solvent(db: Db) {
    forall id | id in db.balances :: !db.balances[id].allowNegativeBalance ==> db.balances[id].balance >= 0
  }

  /** The sufficiency invariant: every transfer, failed or not, keeps the store solvent. */
  lemma TransferKeepsSolvent(db: Db, req: AccountFundTransfer, clock: Clock, f: TransferFaults, commit: Option<Error>)
    requires Solvent(db)
    ensures Solvent(Transfer(db, req, clock, f, commit).store)
  {
    var r := Transfer(db, req, clock, f, commit);
    if r.result.Ok? {
      forall id | id in r.store.balances && !r.store.balances[id].allowNegativeBalance
        ensures r.store.balances[id].balance >= 0
      {
        assert id in db.balances;
        if id == req.accountSrcId {
          assert !Overdraws(db.balances[id].balance, db.balances[id].allowNegativeBalance, req.amount);
        }
      }
    }
  }

  /**
   * A source that may go negative pays any positive amount it is asked
   * for, whatever its balance, and ends at balance - amount.
   */
  lemma OverdraftAllowed(db: Db, req: AccountFundTransfer, clock: Clock)
    requires Validate(req).None?
    requires req.accountSrcId in db.balances && req.accountDstId in db.balances
    requires db.balances[req.accountSrcId].allowNegativeBalance
    ensures var r := Transfer(db, req, clock, NoFaults, None);
            && r.result.Ok?
            && r.store.balances[req.accountSrcId].balance == db.balances[req.accountSrcId].balance - req.amount
  {
  }

  /**
   * A refused request is refused the same way whatever the store, the
   * clock and the repositories would have done: nothing is consulted.
   */
  lemma ValidationTouchesNothing(db1: Db, db2: Db, req: AccountFundTransfer, c1: Clock, c2: Clock,
                                 f1: TransferFaults, f2: TransferFaults, k1: Option<Error>, k2: Option<Error>)
    requires Validate(req).Some?
    ensures Transfer(db1, req, c1, f1, k1).store == db1
    ensures Transfer(db1, req, c1, f1, k1).result == Transfer(db2, req, c2, f2, k2).result
  {
  }

  /**
   * What the transaction manager buys: when a later write fails, the bare
   * callback has already logged the entry (and debited the source if the
   * destination write failed), while Transfer leaves the store untouched.
   */
  lemma RollbackUndoesPartialWrites(db: Db, req: AccountFundTransfer, clock: Clock, f: TransferFaults,
                                    commit: Option<Error>)
    requires Admitted(db, req, f) && f.save.None? && (f.updateSrc.Some? || f.updateDst.Some?)
    ensures var trx := NewTransaction(req.accountSrcId, req.accountDstId, req.amount, clock);
            var partial := Callback(db, req, clock, f).store;
            && partial.ledger == db.ledger + [trx]
            && (f.updateSrc.None? ==>
                  && req.accountSrcId in partial.balances
                  && partial.balances[req.accountSrcId].balance
                  == db.balances[req.accountSrcId].balance - req.amount)
            && Transfer(db, req, clock, f, commit).store == db
  {
    CallbackWrites(db, req, clock, f);
  }

  /** Example: 5000 from A (100000, may not go negative) to B (0). */
  lemma ExampleSufficient(db: Db, clock: Clock)
    requires "A" in db.balances && "B" in db.balances
    requires db.balances["A"].balance == 100000 && !db.balances["A"].allowNegativeBalance
    requires db.balances["B"].balance == 0
    ensures var r := Transfer(db, AccountFundTransfer("B", "A", 5000), clock, NoFaults, None);
            && r.result.Ok? && r.result.value.amount == 5000
            && r.store.balances["A"].balance == 95000 && r.store.balances["B"].balance == 5000
            && |r.store.ledger| == |db.ledger| + 1
  {
  }

  /** Example: 150000 from A (100000, may not go negative) is refused, nothing moves. */
  lemma ExampleInsufficient(db: Db, clock: Clock)
    requires "A" in db.balances && "B" in db.balances
    requires db.balances["A"].balance == 100000 && !db.balances["A"].allowNegativeBalance
    ensures Transfer(db, AccountFundTransfer("B", "A", 150000), clock, NoFaults, None)
            == Outcome(db, Err(Plain("insufficient amount")))
  {
  }

  /** Example: 150000 from A (100000, may go negative) leaves A at -50000. */
  lemma ExampleOverdraft(db: Db, clock: Clock)
    requires "A" in db.balances && "B" in db.balances
    requires db.balances["A"].balance == 100000 && db.balances["A"].allowNegativeBalance
    ensures var r := Transfer(db, AccountFundTransfer("B", "A", 150000), clock, NoFaults, None);
            && r.result.Ok?
            && r.store.balances["A"].balance == -50000
            && r.store.balances["B"].balance == db.balances["B"].balance + 150000
  {
  }

  /** `amount` from `src` to each of `dsts` in turn, with no repository failing. */
  function FanOut(db: Db, src: Id, dsts: seq<Id>, amount: int, clock: Clock): Db
    decreases |dsts|
  {
    if |dsts| == 0 then db
    else FanOut(Transfer(db, AccountFundTransfer(dsts[0], src, amount), clock, NoFaults, None).store,
                src, dsts[1..], amount, clock)
  }

  /**
   * No lost updates, run one after another: n transfers of `amount` out of
   * a source that can cover them all each succeed, and leave the source at
   * its initial balance minus n * amount.
   */
  lemma {:induction false} FanOutDebits(db: Db, src: Id, dsts: seq<Id>, amount: int, clock: Clock)
    requires src != "" && amount > 0 && src in db.balances
    requires forall i | 0 <= i < |dsts| :: dsts[i] != "" && dsts[i] != src && dsts[i] in db.balances
    requires db.balances[src].allowNegativeBalance || db.balances[src].balance >= |dsts| * amount
    ensures var end := FanOut(db, src, dsts, amount, clock);
            && end.balances.Keys == db.balances.Keys
            && end.balances[src].balance == db.balances[src].balance - |dsts| * amount
            && end.balances[src].allowNegativeBalance == db.balances[src].allowNegativeBalance
            && |end.ledger| == |db.ledger| + |dsts|
    decreases |dsts|
  {
    if |dsts| > 0 {
      var req := AccountFundTransfer(dsts[0], src, amount);
      assert |dsts| * amount == amount + (|dsts| - 1) * amount;
      assert Admitted(db, req, NoFaults);
      var next := Transfer(db, req, clock, NoFaults, None).store;
      forall i | 0 <= i < |dsts[1..]|
        ensures dsts[1..][i] != "" && dsts[1..][i] != src && dsts[1..][i] in next.balances
      {
        assert dsts[1..][i] == dsts[i + 1];
      }
      FanOutDebits(next, src, dsts[1..], amount, clock);
    }
  }
}
