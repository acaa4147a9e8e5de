/**
  The branch of `RPCClient.abciQuery` that follows the POST: the parsed
  JSON-RPC 2.0 response is either an error response, which makes the call
  fail with the serialized error object, or a success response, whose result
  is handed to the ABCI decoder.

  Encoding the query, the POST itself and parsing the envelope belong to
  external codecs; so do `JSON.stringify` and the decoder, which are given
  here as the parameters `stringify` and `decode`.
*/
module AbciQuery {
  import opened Results

  /** The `id` member of a JSON-RPC 2.0 response (null when the request's id could not be read). */
  datatype RequestId = NumberId(number: int) | StringId(text: string) | NullId

  /** The error object of section 5.1 of the JSON-RPC 2.0 specification, with data of type `D`. */
  datatype ErrorObject<D> = ErrorObject(code: int, message: string, data: Option<D>)

  /** A parsed JSON-RPC 2.0 response: it carries either an error object or a result. */
  datatype RpcResponse<R, D> =
    | ErrorResponse(id: RequestId, error: ErrorObject<D>)
    | SuccessResponse(id: RequestId, result: R)

  /**
    What `abciQuery` makes of the parsed response.  The decoder is given the
    whole success envelope, its `id` as well as its `result`.
  */
  function Query<R, D, Q>(response: RpcResponse<R, D>, stringify: ErrorObject<D> -> string, decode: (RequestId, R) -> Q): (r: Result<Q, string>)
    ensures r.Failure? <==> response.ErrorResponse?
  {
    match response
    case ErrorResponse(_, error) => Failure(stringify(error))
    case SuccessResponse(id, result) => Success(decode(id, result))
  }

  /**
    An error response makes the call fail with the serialized error object,
    and the decoder plays no part: any other decoder gives the same outcome.
  */
  lemma ErrorResponseFails<R, D, Q>(response: RpcResponse<R, D>, stringify: ErrorObject<D> -> string, decode: (RequestId, R) -> Q)
    requires response.ErrorResponse?
    ensures Query(response, stringify, decode) == Failure(stringify(response.error))
    ensures forall other: (RequestId, R) -> Q :: Query(response, stringify, other) == Query(response, stringify, decode)
  {
  }

  /**
    A success response yields the decoded result, whatever the error
    serializer would have produced.
  */
  lemma SuccessResponseDecodes<R, D, Q>(response: RpcResponse<R, D>, stringify: ErrorObject<D> -> string, decode: (RequestId, R) -> Q)
    requires response.SuccessResponse?
    ensures Query(response, stringify, decode) == Success(decode(response.id, response.result))
    ensures forall other: ErrorObject<D> -> string :: Query(response, other, decode) == Query(response, stringify, decode)
  {
  }
}
