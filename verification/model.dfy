/**
 * Request records (pkg/model/accounts.go, pkg/model/accountTransactions.go;
 * pkg/account/model/model.go and pkg/accounttransaction/model.go declare
 * the same shapes). A nil pointer field of AccountEdit is `None`.
 */
module Model {

  import opened Optional
  import opened Tables

  datatype AccountRegister = AccountRegister(
    id: Id,
    name: string,
    address: string,
    birthDate: string,
    gender: bool,
    allowNegativeBalance: bool)

  datatype AccountEdit = AccountEdit(
    name: Option<string>,
    address: Option<string>,
    birthDate: Option<string>,
    gender: Option<bool>,
    allowNegativeBalance: Option<bool>)

  datatype AccountFundTransfer = AccountFundTransfer(
    accountDstId: Id,
    accountSrcId: Id,
    amount: int)
}
