/**
 * The errors the services return (pkg/errors/error.go and the plain Go errors
 * produced with errors.New / fmt.Errorf), and the Result/Outcome shapes that
 * replace Go's `(value, error)` pairs.
 */
module Errors {

  import opened Optional

  /** *errors.EndpointError: the structured error the HTTP layer serialises. */
  datatype EndpointError = EndpointError(errorMessage: string, errorCode: string) {

    /** The `Error()` method of Go's error interface. */
    function Error(): string {
      errorMessage
    }
  }

  /** Every error value a service in scope can return. */
  datatype Error =
    | Endpoint(endpoint: EndpointError)
      // an *errors.EndpointError
    | Plain(message: string)
      // errors.New(message) or fmt.Errorf(...)
    | DateParse(input: string)
      // the error time.Parse returns for a malformed date
    | InvalidAmount | InvalidAccount | InsufficientAmount
      // kinds whose constructors pkg/errors/error.go does not define
    | Storage(cause: nat)
      // an opaque failure reported by a repository or by a commit

  /** A Go `(value, error)` pair in which exactly one side is meaningful. */
  datatype Result<+T> = Ok(value: T) | Err(error: Error)

  /** The store an operation leaves behind, together with what it returned. */
  datatype Outcome<+S, +T> = Outcome(store: S, result: Result<T>)

  const AlreadyExistCode := "68"
  const NotFoundCode := "76"

  const IdPrefix := "Account with ID"
  const AlreadyExistSuffix := " already exist"
  const NotFoundSuffix := " not found"

  function NewAccountAlreadyExist(accountId: string): Error {
    Endpoint(EndpointError(IdPrefix + accountId + AlreadyExistSuffix, AlreadyExistCode))
  }

  function NewAccountNotFound(accountId: string): Error {
    Endpoint(EndpointError(IdPrefix + accountId + NotFoundSuffix, NotFoundCode))
  }

  /**
   * Reads the account id back out of a message built as
   * IdPrefix + id + suffix; None when the message does not have that shape.
   */
  function IdBetween(message: string, suffix: string): (id: Option<string>)
    ensures id.Some? ==> message == IdPrefix + id.value + suffix
  {
    if |message| >= |IdPrefix| + |suffix|
       && message[..|IdPrefix|] == IdPrefix
       && message[|message| - |suffix|..] == suffix
    then
      var id := message[|IdPrefix|..|message| - |suffix|];
      assert message == message[..|IdPrefix|] + id + message[|message| - |suffix|..];
      Some(id)
    else
      None
  }

  lemma IdBetweenOf(id: string, suffix: string)
    ensures IdBetween(IdPrefix + id + suffix, suffix) == Some(id)
  {
    var m := IdPrefix + id + suffix;
    assert m[..|IdPrefix|] == IdPrefix;
    assert m[|m| - |suffix|..] == suffix;
    assert m[|IdPrefix|..|m| - |suffix|] == id;
  }

  /**
   * The message of NewAccountNotFound(id) names exactly `id`, and its code
   * is "76".
   */
  lemma NotFoundRoundTrip(id: string)
    ensures NewAccountNotFound(id).endpoint.errorCode == "76"
    ensures IdBetween(NewAccountNotFound(id).endpoint.Error(), NotFoundSuffix) == Some(id)
  {
    IdBetweenOf(id, NotFoundSuffix);
  }

  /**
   * The message of NewAccountAlreadyExist(id) names exactly `id`, and its
   * code is "68".
   */
  lemma AlreadyExistRoundTrip(id: string)
    ensures NewAccountAlreadyExist(id).endpoint.errorCode == "68"
    ensures IdBetween(NewAccountAlreadyExist(id).endpoint.Error(), AlreadyExistSuffix) == Some(id)
  {
    IdBetweenOf(id, AlreadyExistSuffix);
  }

  /**
   * The two constructors are injective and never produce the same error:
   * the code tells the kinds apart, the message tells the ids apart.
   */
  lemma ConstructorsDistinguish(a: string, b: string)
    ensures NewAccountNotFound(a) != NewAccountAlreadyExist(b)
    ensures NewAccountNotFound(a) == NewAccountNotFound(b) ==> a == b
    ensures NewAccountAlreadyExist(a) == NewAccountAlreadyExist(b) ==> a == b
  {
    NotFoundRoundTrip(a);
    NotFoundRoundTrip(b);
    AlreadyExistRoundTrip(a);
    AlreadyExistRoundTrip(b);
  }
}
