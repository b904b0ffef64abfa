/**
 * What a handler answers and which collaborators it calls, in order. The handlers of the
 * wallet and user routes are stated as functions onto these values.
 */
module Server {
  import opened Errors
  import opened Money
  import opened Models

  const StatusOK := 200
  const StatusCreated := 201
  const StatusBadRequest := 400
  const StatusInternalServerError := 500

  /** The `data` member of a success envelope. */
  datatype Data =
    | NoData
    | Balance(balance: string)
    | Users(users: seq<UserWallet>)
    | AccessToken(token: string)

  /** A response body. */
  datatype Body =
    | Envelope(success: bool, message: string, data: Data)  // `util.BuildResponseEntity(success, message, data)`
    | ErrorBody(error: string)   // `errorResponse(err)`: success false, message "", and the error's text
    | RawError(err: Error)       // an error value handed to the JSON writer as it is
    | NoBody                     // the 500 the framework's recovery writes after a panic

  datatype Response = Response(status: int, body: Body)

  /** `errorResponse(err)` sent with the given status. */
  function ErrorResponse(status: int, e: Error): (r: Response)
    ensures r.status == status && r.body.ErrorBody? && r.body.error == Text(e)
  {
    Response(status, ErrorBody(Text(e)))
  }

  /** A call a handler makes on the repository, the cache or the token maker. */
  datatype Call =
    | GetWalletCall(id: int)
    | UpdateWalletCall(walletId: int, balance: Money)
    | GetUserByEmailCall(email: string)
    | GetWalletByUserIdCall(userId: int)
    | GetAllUsersCall
    | CreateUserCall(user: User)
    | CacheGetCall(key: string)
    | CacheSetCall(key: string, value: string, ttl: int)
    | CreateTokenCall(subject: string, duration: int)

  /** A handled request: the response and the calls made on the way, in order. */
  datatype Handled = Handled(response: Response, calls: seq<Call>)
}
