/**
 * The current generation's records (pkg/domain/accounts.go,
 * pkg/domain/accountTransactions.go) and its store: the account table,
 * the balance table and the ledger of transactions.
 */
module Domain {

  import opened Tables
  import opened Dates

  /** domain.Account: identity, never holds money. */
  datatype Account = Account(
    id: Id,
    accountId: Id,
    name: string,
    address: string,
    birthDate: Date,
    gender: bool)

  /** domain.AccountBalance: one row per account; money as integer minor units. */
  datatype AccountBalance = AccountBalance(
    id: Id,
    accountId: Id,
    balance: int,
    allowNegativeBalance: bool)

  /**
   * A ledger entry. All three generations declare the same record; it refers
   * to the two accounts by id (the Go code's pointers are to objects that are
   * mutated right after the entry is built, so they hold no snapshot).
   */
  datatype AccountTransaction = AccountTransaction(
    id: string,
    transactionTimestamp: int,
    amount: int,
    accountSrcId: Id,
    accountDstId: Id)

  predicate AccountsKeyed(t: map<Id, Account>) {
    forall k | k in t :: t[k].id == k
  }

  predicate BalancesKeyed(t: map<Id, AccountBalance>) {
    forall k | k in t :: t[k].id == k
  }

  /** A table keyed by the rows' primary key. */
  type AccountTable = t: map<Id, Account> | AccountsKeyed(t) witness map[]

  type BalanceTable = t: map<Id, AccountBalance> | BalancesKeyed(t) witness map[]

  datatype Db = Db(accounts: AccountTable, balances: BalanceTable, ledger: seq<AccountTransaction>)
}
