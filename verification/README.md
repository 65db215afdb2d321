# go-mockva: fund transfer and account register/edit, in Dafny

go-mockva is a mock virtual-account service. Its core moves money between
two accounts and registers or edits account records. The code holds three
generations of the same logic:

- the **current** services: `pkg/service/accountService.go` and
  `pkg/service/accountTransactionService.go`. Balances live in their own
  `AccountBalance` rows. The three writes of a transfer run inside
  `DBTransactionManager.Transaction`.
- the **untyped legacy** services: `pkg/account/service/accountServiceImpl.go` and
  `pkg/accounttransaction/service/accountTransactionServiceImpl.go`.
  The transfer has no transaction and returns `errors.New` messages.
- the **typed legacy** services: `pkg/account/service.go` and
  `pkg/accounttransaction/service.go`. The account record carries its own
  balance. The transfer has no transaction and returns typed errors.

The model is functional. A store is a set of in-memory tables keyed by
primary key (`map<Id, Row>`), plus the ledger as a `seq` of entries. Every
repository call may fail. The caller passes in which calls fail, as one
`Option<Error>` per call, in call order. Each service operation is a pure
function from a store, a request and those faults to an `Outcome`: the
store it leaves behind and a `Result`, which holds a value or an error,
never both.

A transfer's three writes form an ordered list of effects: ledger entry,
then source balance, then destination balance. `UnitOfWork.RunWrites`
runs such a list the way the legacy code calls its repositories. The
first failure stops the run, and the writes before it stay.
`UnitOfWork.Transaction` is the transaction manager's commit-or-rollback
contract, which the current transfer wraps around the same run.

Modules:

| module | file | models |
|---|---|---|
| `Errors` | errors.dfy | pkg/errors/error.go and the plain Go errors |
| `Decimal` | decimal.dfy | `strconv.Itoa` and decimal digit strings |
| `Dates` | dates.dfy | `time.Parse` with the `2006-01-02` (DateOnly) layout |
| `Tables` | tables.dfy | find / save / update on a keyed table |
| `UnitOfWork` | unit_of_work.dfy | running writes one by one, and the transaction manager |
| `Domain`, `Model` | domain.dfy, model.dfy | pkg/domain and pkg/model records |
| `Transfers` | transfers.dfy | request checks, sufficiency rule, ledger entry, shared by all generations |
| `Repository` | repository.dfy | current balance and ledger repository calls |
| `AccountRules` | account_rules.dfy | Register/Edit of pkg/account/service/accountServiceImpl.go |
| `AccountService` | account_service.dfy | Register/Edit of pkg/service/accountService.go |
| `AccountTransactionService` | account_transaction_service.dfy | current atomic transfer |
| `AccountPackage` | account_package.dfy | pkg/account/model.go and Register/Edit of pkg/account/service.go |
| `LegacyTransfer` | legacy_transfer.dfy | the non-atomic transfer both legacy copies share |
| `AccountTransactionServiceImpl` | account_transaction_service_impl.dfy | untyped legacy transfer |
| `AccountTransactionPackage` | account_transaction_package.dfy | typed legacy transfer |

The model follows the service code as written. The one exception is the account and legacy ledger repositories' Save and Update, which follow the repository interface (see "## Left out"). Facts about the code that the model keeps:

- No generation takes the two locks in a canonical order. Source is always read first, then destination.
- In the current generation, the request checks and the insufficient-funds refusal are plain `errors.New` / `fmt.Errorf` errors; lookup errors, including the typed NewAccountNotFound, pass through unchanged.
- The typed legacy transfer reports an empty source or destination id as a not-found error (code "76"). The refusal text stands where the account id would go.
- The current Register checks that the birth date parses even when it is empty. An empty date is always refused (`Dates.EmptyIsNoDate`).
- The current Register does not copy `AllowNegativeBalance`, and it creates no balance row.

## Model

| member | source | states |
|---|---|---|
| Errors.IdBetween | pkg/errors/error.go:12-24 | Reads the account id back out of an endpoint-error message; a message it accepts is exactly prefix + id + suffix |
| Errors.EndpointError.Error | pkg/errors/error.go:8-10 | No contract of its own: Error() is the message, as Errors.NotFoundRoundTrip and Errors.AlreadyExistRoundTrip use it to read the id back |
| Errors.NewAccountAlreadyExist | pkg/errors/error.go:12-17 | No contract of its own: characterised by Errors.AlreadyExistRoundTrip (code "68", the id read back) and Errors.ConstructorsDistinguish |
| Errors.NewAccountNotFound | pkg/errors/error.go:19-24 | No contract of its own: characterised by Errors.NotFoundRoundTrip (code "76", the id read back) and Errors.ConstructorsDistinguish |
| Errors.NotFoundRoundTrip | pkg/errors/error.go:19-24 | NewAccountNotFound(id) has code "76", and its Error() text, "Account with ID" + id + " not found", gives back exactly id |
| Errors.AlreadyExistRoundTrip | pkg/errors/error.go:12-17 | NewAccountAlreadyExist(id) has code "68", and its Error() text, "Account with ID" + id + " already exist", gives back exactly id |
| Errors.ConstructorsDistinguish | pkg/errors/error.go:12-24 | A not-found error never equals an already-exist error, and each constructor is injective in the id |
| Decimal.Itoa | pkg/service/accountTransactionService.go:64 | strconv.Itoa of a non-negative int is a non-empty digit string with no leading zero |
| Decimal.ItoaValue | pkg/service/accountTransactionService.go:64 | Reading the digits of Itoa(n) gives back n |
| Decimal.ItoaInjective | pkg/service/accountTransactionService.go:64 | Different nanosecond readings give different id suffixes |
| Dates.ParseDate | pkg/service/accountService.go:65-69 | A date the DateOnly parser accepts is a real calendar date, and the text has the YYYY-MM-DD shape; text of any other shape is refused |
| Dates.ParseFormat | pkg/service/accountService.go:65-69 | Formatting a valid date and parsing it gives back the same date |
| Dates.FormatParse | pkg/service/accountService.go:65-69 | The parser accepts only the canonical spelling of the date it returns |
| Dates.EmptyIsNoDate | pkg/account/service/accountServiceImpl.go:22-26 | The empty string is not a date, so an unconditional parse refuses an empty birth date |
| Tables.Find | pkg/account/repository.go:19-29 | A lookup returns the row for a present key, NewAccountNotFound(id) for a missing one, and a storage failure unchanged |
| Tables.Insert | pkg/repository/accountRepository.go:23-29 | Save adds the row when the key is new; a reported failure is returned unchanged and changes nothing; an existing key is refused, with NewAccountAlreadyExist chosen by the model as the refusal error |
| Tables.Replace | pkg/repository/accountRepository.go:31-38 | Update overwrites an existing row and keeps the key set; a reported failure is returned unchanged; a missing key is refused with NotFound |
| Tables.ReadYourWrites | pkg/repository/accountRepository.go:21-38 | After a successful Save or Update, the lookup of that key returns the new row, and other keys read as before |
| UnitOfWork.FirstFailure | pkg/accounttransaction/service.go:56-67 | The index of the first failing call: every earlier call succeeded |
| UnitOfWork.RunWrites | pkg/accounttransaction/service.go:56-67 | The calls run in order and stop at the first failure: the run reports no error iff no call fails, and otherwise reports exactly the first failing call's error; its store is given by UnitOfWork.RunWritesPrefix |
| UnitOfWork.RunWritesPrefix | pkg/accounttransaction/service.go:56-67 | Writes run with no transaction leave exactly the writes before the first failure applied, and report that failure |
| UnitOfWork.RunThree | pkg/accounttransaction/service.go:56-67 | The three-write run, unfolded: a Save failure changes nothing, a later failure keeps the writes before it |
| UnitOfWork.Transaction | pkg/repository/transactionManager.go:7-14 | Commit when the callback and the commit succeed; on any error, restore the store and return that error |
| UnitOfWork.AtomicRun | pkg/repository/transactionManager.go:7-14 | Writes inside a transaction are all-or-nothing: success iff no call and no commit fails, and then every write is applied; otherwise none is |
| Transfers.Validate | pkg/service/accountTransactionService.go:38-49 | The first failing check, in order: empty source, empty destination, amount <= 0, same account; no violation iff all four pass |
| Transfers.Overdraws | pkg/service/accountTransactionService.go:61 | No contract of its own: the refusal rule balance - amount < 0 and not allowed to go negative, characterised by Transfers.OverdrawsMeans |
| Transfers.OverdrawsMeans | pkg/service/accountTransactionService.go:61-63 | An admitted transfer from an account that may not go negative leaves it at or above zero; an account that may go negative is never refused |
| Transfers.TransactionIdCollides | pkg/service/accountTransactionService.go:64 | The transaction id is not unique: for all ids x, y, z, the pairs (x, y:z) and (x:y, z) differ but get the same id at the same nanosecond |
| Transfers.TransactionId | pkg/service/accountTransactionService.go:64 | The id starts with the source id and ends with the decimal spelling of the nanosecond, which Decimal.ItoaValue reads back; Transfers.TransactionIdCollides shows it is not unique |
| Transfers.NewTransaction | pkg/service/accountTransactionService.go:64-71 | The ledger entry records the request's source id, destination id and amount |
| Repository.ApplyIsRepositoryCall | pkg/service/accountService.go:114-129 | Each write a transfer applies is the ledger Save or balance Update repository call succeeding on a row that exists |
| Repository.FindAndLockAccountBalance | pkg/service/accountService.go:114-116 | Returns the balance row of the requested account; a fault is returned unchanged and a missing row gives NewAccountNotFound(id) |
| Repository.UpdateBalance | pkg/service/accountService.go:127-129 | Overwrites the row with the balance's id and keeps the key set, accounts and ledger; a fault is returned unchanged |
| Repository.SaveTransaction | pkg/repository/postgresql/accountTrxRepositoryImpl.go:26-31 | Appends exactly the entry to the ledger and changes nothing else; a fault is returned unchanged |
| AccountRules.Register | pkg/account/service/accountServiceImpl.go:16-40 | Refused iff the lookup finds the id, the date fails to parse, or Save fails, in that order, and then nothing is written; a Save failure is returned unchanged; success stores a record that copies the request fields |
| AccountRules.AlreadyExist | pkg/account/service/accountServiceImpl.go:19 | No contract of its own: the plain "account <id> already exist" error, which AccountRules.Register returns when the lookup finds the id |
| AccountRules.RegisterAfterLookupError | pkg/account/service/accountServiceImpl.go:17-20 | A failed lookup does not refuse Register: a new id is registered as if the lookup succeeded, and an existing id is still refused by Save, with the refusal error the model chooses for Save |
| AccountRules.RegisterIgnoresAllowNegative | pkg/account/service/accountServiceImpl.go:28-34 | The request's AllowNegativeBalance affects neither the result nor the store |
| AccountRules.Patch | pkg/account/service/accountServiceImpl.go:47-63 | Each non-nil field replaces the old value and each nil field keeps it; a birth date applies only when non-empty, and fails only when it does not parse |
| AccountRules.PatchCompose | pkg/account/service/accountServiceImpl.go:47-63 | Two successful patches in a row equal one patch with their merge: the later non-nil field wins |
| AccountRules.PatchIdempotent | pkg/account/service/accountServiceImpl.go:47-63 | Re-applying a patch to its own result changes nothing |
| AccountRules.EmptyPatchIsIdentity | pkg/account/service/accountServiceImpl.go:47-63 | A patch with every field nil (or only the ignored flag, or an empty birth date) returns the account unchanged |
| AccountRules.Edit | pkg/account/service/accountServiceImpl.go:42-69 | A lookup error is returned first, then a patch error, then the Update error unchanged, and none writes; success writes back the patched record under its id and nothing else |
| AccountRules.EditIdempotent | pkg/account/service/accountServiceImpl.go:42-69 | Repeating a successful edit on its result leaves store and result unchanged |
| AccountService.Register | pkg/service/accountService.go:59-83 | Register touches neither balances nor ledger; an error leaves the store unchanged, and success adds the new id only |
| AccountService.Edit | pkg/service/accountService.go:85-112 | Edit touches neither balances nor ledger; an error leaves the store unchanged, and success replaces only the edited account with its patch |
| AccountTransactionService.Transfer | pkg/service/accountTransactionService.go:37-92 | Errors come in order: checks, source lookup, destination lookup, sufficiency, the three writes, commit; any error leaves the store unchanged; success appends one entry with the request's ids and amount, debits the source, credits the destination, changes nothing else |
| AccountTransactionService.Callback | pkg/service/accountTransactionService.go:52-87 | The closure alone: a source-lookup failure, then a destination-lookup failure, is returned with nothing written; it succeeds iff both rows are found, the rule admits the amount and no write fails, and then returns the entry for the request; it never touches accounts |
| AccountTransactionService.CallbackWrites | pkg/service/accountTransactionService.go:52-87 | The callback alone leaves the ledger entry, then the debit, then the credit, stopping at the first failing write |
| AccountTransactionService.TransferConserves | pkg/service/accountTransactionService.go:72-73 | A successful transfer keeps the sum of the two balances |
| AccountTransactionService.TransferKeepsSolvent | pkg/service/accountTransactionService.go:61-63 | No transfer, failed or not, takes an account that may not go negative below zero |
| AccountTransactionService.OverdraftAllowed | pkg/service/accountTransactionService.go:61 | A source that may go negative pays any valid amount and ends at balance - amount |
| AccountTransactionService.ValidationTouchesNothing | pkg/service/accountTransactionService.go:38-50 | A refused request returns the same error whatever the store, clock, repositories or commit, and changes nothing |
| AccountTransactionService.RollbackUndoesPartialWrites | pkg/service/accountTransactionService.go:75-88 | When a balance write fails, the callback has already logged the entry (and debited the source), but the transfer leaves the store as it was |
| AccountTransactionService.ExampleSufficient | pkg/service/accountTransactionService.go:61-73 | 5000 from an account holding 100000 leaves 95000 and 5000 and one more ledger entry |
| AccountTransactionService.ExampleInsufficient | pkg/service/accountTransactionService.go:61-63 | 150000 from an account holding 100000 that may not go negative is refused with "insufficient amount" and nothing changes |
| AccountTransactionService.ExampleOverdraft | pkg/service/accountTransactionService.go:61-73 | 150000 from an account holding 100000 that may go negative leaves it at -50000 |
| AccountTransactionService.FanOutDebits | pkg/service/accountTransactionService.go:72-85 | n transfers of amount, one after another, from a source that covers them all each succeed and leave it down n * amount with n more entries |
| AccountPackage.OptionalDate | pkg/account/service.go:28-36 | An empty birth date means no date and is not parsed; any other text must parse, and gives exactly the parsed date, otherwise the parse error is returned |
| AccountPackage.Register | pkg/account/service.go:23-51 | Refused with AlreadyExist (code "68") when the lookup finds the id; then a non-empty date that does not parse returns the parse error, then a Save failure is returned unchanged, and none writes; success stores a record with balance 0 and the request's AllowNegativeBalance |
| AccountPackage.RegisterReadBack | pkg/account/service.go:23-51 | A registered account reads back as stored, and registering its id again is refused with AlreadyExist |
| AccountPackage.Overwrite | pkg/account/service.go:58-68 | Name, AllowNegativeBalance, address and gender are overwritten; the birth date only when non-empty; id and balance are kept |
| AccountPackage.Edit | pkg/account/service.go:53-74 | A lookup error is returned first, then a date error, then the Update error unchanged, and none writes; success writes back the overwritten record under its id only |
| AccountPackage.EditIdempotent | pkg/account/service.go:58-68 | Repeating a successful edit on its result leaves store and result unchanged |
| AccountPackage.EditKeepsBalance | pkg/account/service.go:58-61 | Edit never changes any account's balance |
| LegacyTransfer.Transfer | pkg/accounttransaction/service/accountTransactionServiceImpl.go:18-68 | Errors come in order: checks, lookups, sufficiency, each leaving the store unchanged; then a failed Save changes nothing, a failed source Update leaves the entry, a failed destination Update leaves the entry and the debit; success appends the entry, debits the source and credits the destination |
| LegacyTransfer.TransferConserves | pkg/accounttransaction/service/accountTransactionServiceImpl.go:51-52 | A successful transfer keeps the sum of the two balances |
| LegacyTransfer.LostCredit | pkg/accounttransaction/service/accountTransactionServiceImpl.go:62-65 | When only the destination Update fails, the ledger has the entry but the pair's balances drop by amount |
| LegacyTransfer.TransferKeepsSolvent | pkg/accounttransaction/service/accountTransactionServiceImpl.go:40-42 | No transfer, whichever write fails, takes an account that may not go negative below zero |
| AccountTransactionServiceImpl.Transfer | pkg/accounttransaction/service/accountTransactionServiceImpl.go:18-68 | Each refusal is its errors.New message and writes nothing; success iff admitted with no failing write, and then the entry carries the request and the balances move by amount |
| AccountTransactionServiceImpl.ExampleOverdraft | pkg/accounttransaction/service/accountTransactionServiceImpl.go:40-52 | An account at 0 that may go negative sends 5000 and ends at -5000 |
| AccountTransactionPackage.Transfer | pkg/accounttransaction/service.go:20-70 | An empty id is a not-found error, source first; then InvalidAmount, InvalidAccount and InsufficientAmount, none writing; success iff admitted with no failing write |
| AccountTransactionPackage.EmptyIdMessages | pkg/accounttransaction/service.go:21-26 | An empty id yields code "76", and the message carries the refusal text where an id would be |
| AccountTransactionPackage.SameAsUntyped | pkg/accounttransaction/service.go:20-70 | The typed and untyped copies leave the same store, succeed together, and return the same error unless the service itself refuses |
| AccountTransactionPackage.ExampleInsufficient | pkg/accounttransaction/service.go:42-44 | 1000000 from an account holding 100000 that may not go negative is refused with InsufficientAmount and nothing changes |

## Left out

- HTTP handlers, controllers, routes, the server and response writer: these are request/response plumbing.
- `cmd/main.go`, configuration, migrations, swagger assets.
- GORM/Postgres repositories and the GORM transaction manager: foreign calls. They are replaced by keyed in-memory tables, a per-call fault parameter and the commit-or-rollback contract.
- Several GORM writes ignore the database's error and always return nil: the current account `Save`/`Update` (pkg/repository/postgresql/accountRepositoryImpl.go:36-48), the legacy account `Save`/`Update` (pkg/account/repository.go:31-43 and pkg/account/repository/accountRepositoryImpl.go:26-38), and the two legacy ledger `Save`s (pkg/accounttransaction/repository.go:16-21 and pkg/accounttransaction/repository/accountTrxRepositoryImpl.go:12-17). The current `UpdateBalance` (pkg/repository/postgresql/accountRepositoryImpl.go:71-76) and current ledger `Save` (pkg/repository/postgresql/accountTrxRepositoryImpl.go:26-31) do return their errors, so the current transfer's write faults and rollback are the code's own behaviour. For the error-swallowing calls, the model follows the repository interface (pkg/repository/accountRepository.go:23-38) instead: any call may fail and its error is returned, Save refuses an existing key and Update a missing one. With the real account Save, a Register whose lookup failed for an existing id reports success for a record that is not stored; the model does not reproduce that.
- LegacyTransfer.Transfer: in the code as written no write of either legacy transfer ever reports failure, because all three calls go to error-swallowing repositories; a failed write is reported as success. The error branches of LegacyTransfer.Transfer, and the LostCredit outcome, describe a repository that honours its interface, not the GORM implementations.
- Tables.Insert: the error for refusing an existing key is NewAccountAlreadyExist by the model's choice; no Save in the code returns it.
- `NewInvalidAmount`, `NewInvalidAccount` and `NewInsufficientAmount`, called by pkg/accounttransaction/service.go:28-43, are not defined in pkg/errors/error.go. The model gives them distinct error kinds with no message or code.
- `FindByID`, `FindAndLockAccountBalance` and `UpdateBalance` of the current AccountService only pass through to the repository. They are modelled as the `Tables`/`Repository` operations they forward to.
- Row locks (`FOR UPDATE`), concurrency, deadlocks and context cancellation. Operations run one at a time.
- `float64` money: balances and amounts are unbounded integers (minor units), so the `< 0` test and conservation are exact.
- `time.Now()`: the nanosecond and timestamp are a `Clock` parameter. Transaction ids are not unique, and nothing is claimed about uniqueness. A ledger key collision appears only as a Save fault.
- The not-found branch of `Update`/`UpdateBalance` cannot happen during a transfer, because both rows were just read.
- `Dates.ParseDate` models the `2006-01-02` layout only: four-digit years 0000-9999, months 01-12, and days within the month, leap years included. Time zones and monotonic clocks are not modelled.
- Logging (`logrus`) and the go-restful error mapping.
- Mocks and test wiring. Several of them are out of sync with the interfaces.
- `Domain.Account.accountId` is never set by Register, and the model leaves it `""`.
- The returned transaction is nil on every error. This holds by construction: a `Result` carries either a value or an error.
- The untyped legacy transfer reads `Balance` from an account record that `pkg/account/model/model.go` does not have. It is modelled on the `pkg/account/model.go` record, which has the field.
