/** The response envelope and the Express response object. */
module Http {
  import opened Wrappers

  /** The name of the list of validation errors in a failure envelope. */
  datatype ListKey = ErrorField | ErrorsField

  /** One `{field, message}` element of that list. */
  datatype ErrorEntry = ErrorEntry(field: string, message: string)

  datatype Payload<D> =
    | Bare
    | Data(value: D)
    | Errors(key: ListKey, entries: seq<ErrorEntry>)

  /** `res.status(status).json({success, message, ...})`; a `None` message is a
      `message: undefined`, which JSON serialisation omits. */
  datatype Response<D> = Response(status: int, success: bool, message: Option<string>, payload: Payload<D>)

  function Failure<D>(status: int, message: Option<string>): Response<D>
  {
    Response(status, false, message, Bare)
  }

  /** Of the writes attempted on one response, the one the client receives:
      the first. */
  function Delivered<D>(attempts: seq<Response<D>>): Option<Response<D>>
  {
    if attempts == [] then None else Some(attempts[0])
  }

  /** The Express response object of one request. Every `json(...)` call is
      recorded; only the first reaches the client, because once the headers
      are sent a further write raises instead of sending. */
  class Res<D> {
    var attempts: seq<Response<D>>

    constructor ()
      ensures attempts == []
    {
      attempts := [];
    }

    /** What the client receives. */
    function Sent(): Option<Response<D>>
      reads this
    {
      Delivered(attempts)
    }

    /** One `res.status(..).json(..)` call; `threw` tells whether it raised
        because a response had already been sent. */
    method Json(r: Response<D>) returns (threw: bool)
      modifies this
      ensures attempts == old(attempts) + [r]
      ensures threw <==> old(attempts) != []
      ensures old(attempts) != [] ==> Sent() == old(Sent())
    {
      threw := attempts != [];
      attempts := attempts + [r];
    }
  }
}
