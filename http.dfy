/**
 * The parts of an Express request that the middlewares read and write, and the two ways a
 * middleware ends: by calling `next()` or by sending an error reply.
 */
module Http {
  import opened Common

  /**
   * A request parameter after JavaScript's `isNaN` test: `NaN` when `isNaN(x)` holds,
   * otherwise the integer that `Number(x)` gives.
   */
  datatype Param = NaN | Num(value: int)

  /** The fields of `req.body` that the middlewares use. */
  datatype Body = Body(
    idUserType: Option<int>,
    names: string,
    surnames: string,
    email: string,
    password: string,
    accountNumber: Option<string>)

  /** The user record stored in a token (`req.user`, and `data.user` after verification). */
  datatype TokenUser = TokenUser(
    idUser: int,
    idUserType: int,
    userType: string,
    names: string,
    surnames: string,
    email: string,
    accountNumber: Option<string>)

  /** A decoded token payload, `{ user }`. */
  datatype Claims = Claims(user: TokenUser)

  /** How a middleware ends: `next()` is called, or an error reply is sent and the chain stops. */
  datatype Outcome<+E> = Next | Reply(error: E)

  /** The mutable request object passed along a middleware chain. */
  class Request {
    /** `req.headers.authorization` */
    var authorization: Option<string>
    /** `req.params.from` and `req.params.to` */
    var from: Param
    var to: Param
    /** `req.body` */
    var body: Body
    /** `req.token`, `req.data`, `req.user`, `req.iat`: set by the middlewares */
    var token: Option<string>
    var data: Option<Claims>
    var user: Option<TokenUser>
    var iat: Option<int>

    constructor (authorization: Option<string>, from: Param, to: Param, body: Body)
      ensures this.authorization == authorization && this.from == from && this.to == to
      ensures this.body == body
      ensures token == None && data == None && user == None && iat == None
    {
      this.authorization := authorization;
      this.from := from;
      this.to := to;
      this.body := body;
      token, data, user, iat := None, None, None, None;
    }
  }
}
