/**
 How an Express handler ends: it sends a status and a JSON body, it forwards an
 `http-errors` error with a status and a fixed message to `next`, or its promise
 rejects outside any `try` block, so that no response is produced by the handler.
 */
module Http {

  datatype Reply<+B> =
    | Send(status: int, body: B)
    | Fail(status: int, message: string)
    | Unhandled
}
