/** The result every server action returns: a success that may carry data, or
    a failure that always carries a message. The `success` flag of the source
    is the choice of constructor. */
module ActionResults {
  import opened Wrappers

  datatype ActionResult<+T> = Success(data: Option<T>) | Failure(error: string)

  /** `ok(data?)`: a success; `data` is `None` when the argument is omitted. */
  function Ok<T>(data: Option<T>): (r: ActionResult<T>)
    ensures r.Success? && r.data == data
  {
    Success(data)
  }

  /** `fail(error)` */
  function Fail<T>(error: string): (r: ActionResult<T>)
    ensures r.Failure? && r.error == error
  {
    Failure(error)
  }

  /** Only successes carry data and only failures carry an error, so `ok` and
      `fail` never build the same value, and each is undone by reading its field. */
  lemma OkFailDisjoint<T>(d: Option<T>, e: string)
    ensures Ok(d) != Fail(e)
    ensures Ok(d).data == d && Fail<T>(e).error == e
    ensures Ok(d).Success? && !Fail<T>(e).Success?
  {
  }
}
