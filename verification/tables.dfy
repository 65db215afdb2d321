/**
 * The repositories, as in-memory tables keyed by primary key, with the
 * failure each call may report supplied by the caller (`fault`). The calls
 * follow the repository interfaces (pkg/repository/accountRepository.go):
 * a lookup reports NewAccountNotFound for a missing key, Save refuses a
 * key that exists, Update refuses a key that does not.
 */
module Tables {

  import opened Optional
  import opened Errors

  type Id = string

  /** FindByID / FindById / FindAndLockAccountBalance. */
  function Find<R>(t: map<Id, R>, id: Id, fault: Option<Error>): (r: Result<R>)
    ensures r.Ok? <==> fault.None? && id in t
    ensures r.Ok? ==> r.value == t[id]
    ensures fault.Some? ==> r == Err(fault.value)
    ensures fault.None? && id !in t ==> r == Err(NewAccountNotFound(id))
  {
    if fault.Some? then Err(fault.value)
    else if id in t then Ok(t[id])
    else Err(NewAccountNotFound(id))
  }

  /** Save of a new row. */
  function Insert<R>(t: map<Id, R>, id: Id, row: R, fault: Option<Error>): (r: Result<map<Id, R>>)
    ensures r.Ok? <==> fault.None? && id !in t
    ensures r.Ok? ==> r.value == t[id := row]
    ensures fault.Some? ==> r == Err(fault.value)
    ensures fault.None? && id in t ==> r == Err(NewAccountAlreadyExist(id))
  {
    if fault.Some? then Err(fault.value)
    else if id in t then Err(NewAccountAlreadyExist(id))
    else Ok(t[id := row])
  }

  /** Update / UpdateBalance of an existing row. */
  function Replace<R>(t: map<Id, R>, id: Id, row: R, fault: Option<Error>): (r: Result<map<Id, R>>)
    ensures r.Ok? <==> fault.None? && id in t
    ensures r.Ok? ==> r.value == t[id := row] && r.value.Keys == t.Keys
    ensures fault.Some? ==> r == Err(fault.value)
    ensures fault.None? && id !in t ==> r == Err(NewAccountNotFound(id))
  {
    if fault.Some? then Err(fault.value)
    else if id !in t then Err(NewAccountNotFound(id))
    else Ok(t[id := row])
  }

  /** A row written by Save or Update is what the next lookup returns. */
  lemma ReadYourWrites<R>(t: map<Id, R>, id: Id, row: R, other: Id)
    ensures Insert(t, id, row, None).Ok? ==> Find(Insert(t, id, row, None).value, id, None) == Ok(row)
    ensures Replace(t, id, row, None).Ok? ==> Find(Replace(t, id, row, None).value, id, None) == Ok(row)
    ensures other != id && Insert(t, id, row, None).Ok? ==>
              Find(Insert(t, id, row, None).value, other, None) == Find(t, other, None)
    ensures other != id && Replace(t, id, row, None).Ok? ==>
              Find(Replace(t, id, row, None).value, other, None) == Find(t, other, None)
  {
  }
}
