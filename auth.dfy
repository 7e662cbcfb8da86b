/**
 * The authentication middlewares: bearer-token extraction, token verification with a
 * permission list, login lookup, registration and token signing. The JSON web token and
 * bcrypt libraries and the `config/regex` predicates are opaque: they enter as functions.
 */
module Auth {
  import opened Common
  import opened JsString
  import opened Http
  import opened Users

  /** The error replies of this file, one per distinct message. */
  datatype AuthError =
    | NoToken             // "No se envio token de verificacion"
    | InvalidToken        // "Token de verificacion no valido"
    | NoPermission        // "Usuario no tiene permisos"
    | MysqlError          // "Error MySQL"
    | UserNotFound        // "No se encontro al usuario con correo ..."
    | BcryptError         // "Error bcryptjs"
    | WrongPassword       // "Clave incorrecta"
    | JwtError            // "Error jsonwebtoken"
    | InvalidEmail        // "Correo no valido"
    | InvalidPassword     // "Clave no valida"
    | InvalidAccountNumber // "Numero de cuenta no valido"
    | RegisterFailed      // "Error al registrar usuario"

  /** The `config/regex` tests, as verdicts on the text `RegExp.test` sees. */
  datatype Validators = Validators(email: string -> bool, password: string -> bool, accountNum: string -> bool)

  /** `jwt.verify` (None: the library reports an error) and `jwt.sign` (None: an error). */
  datatype Jwt = Jwt(verify: string -> Option<Claims>, sign: Option<TokenUser> -> Option<string>)

  /** `bcrypt.compare(plain, hash)` and `bcrypt.hash(plain)`; None is the library reporting an error. */
  datatype Bcrypt = Bcrypt(compare: (string, string) -> Option<bool>, hash: string -> Option<string>)

  /** The text `RegExp.test` sees for a possibly missing body field. */
  function JsText(field: Option<string>): string
  {
    if field.Some? then field.value else "undefined"
  }

  // ---------------------------------------------------------------- getToken

  /** `header.split(' ')[1]`: None when the header has fewer than two fields. */
  function BearerToken(header: string): (t: Option<string>)
    ensures t.Some? ==> ' ' !in t.value
  {
    var fields := Split(header, ' ');
    if |fields| >= 2 then Some(fields[1]) else None
  }

  /** The verdict of `getToken`: the header must exist and its second field must be non-empty. */
  function TokenOf(authorization: Option<string>): (r: Result<string, AuthError>)
    ensures r.Err? ==> r.error == NoToken
    ensures authorization.None? ==> r.Err?
    ensures r.Ok? ==> r.value != [] && ' ' !in r.value && authorization.Some?
    ensures r.Ok? ==> BearerToken(authorization.value) == Some(r.value)
    ensures authorization.Some? && BearerToken(authorization.value).Some? && BearerToken(authorization.value).value != [] ==>
      r == Ok(BearerToken(authorization.value).value)
  {
    if authorization.None? then Err(NoToken)
    else
      var t := BearerToken(authorization.value);
      if t.Some? && t.value != [] then Ok(t.value) else Err(NoToken)
  }

  lemma TwoFieldsHaveSeparator(fields: seq<string>, sep: char)
    requires |fields| >= 2
    ensures sep in Join(fields, sep)
  {
    assert Join(fields, sep)[|fields[0]|] == sep;
  }

  /** A header without a space has no second field, so no token. */
  lemma {:induction false} NoSpaceNoToken(header: string)
    requires ' ' !in header
    ensures BearerToken(header).None?
    ensures TokenOf(Some(header)) == Err(NoToken)
  {
    var fields := Split(header, ' ');
    if |fields| >= 2 {
      TwoFieldsHaveSeparator(fields, ' ');
      assert false;
    }
  }

  /** `"<scheme> <token>"` with space-free parts yields exactly `<token>`. */
  lemma {:induction false} TokenOfBearerHeader(scheme: string, token: string)
    requires ' ' !in scheme && ' ' !in token && token != []
    ensures TokenOf(Some(scheme + " " + token)) == Ok(token)
  {
    assert Join([scheme, token], ' ') == scheme + " " + token by {
      assert [scheme, token][1..] == [token];
    }
    SplitJoin([scheme, token], ' ');
  }

  /** `header` is `scheme + " " + token + rest`, with no space in `scheme` and `rest` empty or starting with a space. */
  predicate SecondField(header: string, scheme: string, token: string, rest: string)
  {
    header == scheme + " " + token + rest && ' ' !in scheme && (rest == [] || rest[0] == ' ')
  }

  /** Conversely, an accepted token sits between the first and the second space of the header. */
  lemma TokenIsSecondField(header: string)
    requires TokenOf(Some(header)).Ok?
    ensures exists scheme, rest :: SecondField(header, scheme, TokenOf(Some(header)).value, rest)
  {
    var fields := Split(header, ' ');
    var token := fields[1];
    assert token == TokenOf(Some(header)).value;
    var scheme := fields[0];
    var rest := if |fields| > 2 then " " + Join(fields[2..], ' ') else [];
    assert Join(fields[1..], ' ') == token + rest by {
      assert fields[1..][0] == token;
      assert |fields| > 2 ==> fields[1..][1..] == fields[2..];
    }
    assert header == scheme + " " + Join(fields[1..], ' ');
    assert ' ' !in scheme;
    assert header == scheme + " " + token + rest && (rest == [] || rest[0] == ' ');
    assert SecondField(header, scheme, token, rest);
  }

  /** `getToken`: stores the header's second field in `req.token`; calls `next()` only when it is non-empty. */
  method GetToken(req: Request) returns (o: Outcome<AuthError>)
    modifies req`token
    ensures old(req.authorization).None? ==> req.token == old(req.token)
    ensures old(req.authorization).Some? ==> req.token == BearerToken(req.authorization.value)
    ensures o == Next <==> TokenOf(req.authorization).Ok?
    ensures o.Reply? ==> o.error == NoToken
  {
    if req.authorization.Some? {
      var bearerToken := BearerToken(req.authorization.value);
      req.token := bearerToken;
      if req.token.Some? && req.token.value != [] {
        o := Next;
      } else {
        o := Reply(NoToken);
      }
    } else {
      o := Reply(NoToken);
    }
  }

  // ---------------------------------------------------------------- verify, verifyAny

  /** What `jwt.verify(req.token)` yields; a missing token never verifies. */
  function Decode(jwt: Jwt, token: Option<string>): Option<Claims>
  {
    if token.Some? then jwt.verify(token.value) else None
  }

  /** The verdict of `verify(...permissions)`: an invalid token first, then the role test. */
  function Admit(permissions: seq<int>, decoded: Option<Claims>): (r: Result<Claims, AuthError>)
    ensures r.Ok? <==> decoded.Some? && decoded.value.user.idUserType in permissions
    ensures decoded.None? ==> r == Err(InvalidToken)
    ensures decoded.Some? && decoded.value.user.idUserType !in permissions ==> r == Err(NoPermission)
    ensures r.Ok? ==> r.value == decoded.value
  {
    if decoded.None? then Err(InvalidToken)
    else if decoded.value.user.idUserType !in permissions then Err(NoPermission)
    else Ok(decoded.value)
  }

  /** The verdict of `verifyAny`: every valid token, whatever its role. */
  function AdmitAny(decoded: Option<Claims>): (r: Result<Claims, AuthError>)
    ensures r.Ok? <==> decoded.Some?
    ensures r.Err? ==> r.error == InvalidToken
    ensures r.Ok? ==> r.value == decoded.value
  {
    if decoded.None? then Err(InvalidToken) else Ok(decoded.value)
  }

  /** Widening the permission list never rejects a token that was admitted. */
  lemma AdmitMonotone(narrow: seq<int>, wide: seq<int>, decoded: Option<Claims>)
    requires forall c :: c in narrow ==> c in wide
    ensures Admit(narrow, decoded).Ok? ==> Admit(wide, decoded) == Admit(narrow, decoded)
  {
  }

  /** `verifyAny` is `verify` listing every role, for tokens whose role is one of the four codes. */
  lemma AdmitAnyIsAllRoles(decoded: Option<Claims>)
    requires decoded.Some? ==> 1 <= decoded.value.user.idUserType <= 4
    ensures AdmitAny(decoded) == Admit([1, 2, 3, 4], decoded)
  {
  }

  /** `verify(...permissions)`: on success stores the payload in `req.data` and calls `next()`. */
  method Verify(req: Request, permissions: seq<int>, jwt: Jwt) returns (o: Outcome<AuthError>)
    modifies req`data
    ensures var r := Admit(permissions, Decode(jwt, req.token));
      && (r.Ok? ==> o == Next && req.data == Some(r.value))
      && (r.Err? ==> o == Reply(r.error) && req.data == old(req.data))
  {
    var decoded := Decode(jwt, req.token);
    if decoded.None? {
      o := Reply(InvalidToken);
    } else if decoded.value.user.idUserType !in permissions {
      o := Reply(NoPermission);
    } else {
      req.data := decoded;
      o := Next;
    }
  }

  /** `verifyAny`: like `verify` with no role test. */
  method VerifyAny(req: Request, jwt: Jwt) returns (o: Outcome<AuthError>)
    modifies req`data
    ensures var r := AdmitAny(Decode(jwt, req.token));
      && (r.Ok? ==> o == Next && req.data == Some(r.value))
      && (r.Err? ==> o == Reply(r.error) && req.data == old(req.data))
  {
    var decoded := Decode(jwt, req.token);
    if decoded.None? {
      o := Reply(InvalidToken);
    } else {
      req.data := decoded;
      o := Next;
    }
  }

  // ---------------------------------------------------------------- getUser

  /** A row the login query returns: its email matches and its type joins with `user_type`. */
  predicate LoginMatch(row: UserRow, aliases: map<int, string>, email: string)
  {
    row.email == NormalizeEmail(email) && row.idUserType in aliases
  }

  /** The rows of the login query, in table order. */
  function LoginRows(rows: seq<UserRow>, aliases: map<int, string>, email: string): (r: seq<UserRow>)
    ensures |r| <= |rows|
    ensures forall x :: x in r <==> x in rows && x.email == NormalizeEmail(email) && x.idUserType in aliases
  {
    Where(rows, x => LoginMatch(x, aliases, email))
  }

  /** The record stored in `req.user` for a row. */
  function UserOfRow(row: UserRow, aliases: map<int, string>): TokenUser
    requires row.idUserType in aliases
  {
    TokenUser(row.id, row.idUserType, aliases[row.idUserType], row.names, row.surnames, row.email, row.accountNumber)
  }

  /** A one-row login result holds the only matching row of the table. */
  lemma OnlyLoginRow(rows: seq<UserRow>, aliases: map<int, string>, email: string)
    requires |LoginRows(rows, aliases, email)| == 1
    ensures var row := LoginRows(rows, aliases, email)[0];
      && row in rows && LoginMatch(row, aliases, email)
      && forall other :: other in rows && LoginMatch(other, aliases, email) ==> other == row
  {
    var found := LoginRows(rows, aliases, email);
    assert found[0] in found;
    forall other | other in rows && LoginMatch(other, aliases, email) ensures other == found[0] {
      assert other in found;
      var k :| 0 <= k < |found| && found[k] == other;
    }
  }

  /**
   * The verdict of `getUser`: the query must return exactly one row, and the password must
   * match that row's hash.
   */
  function Login(rows: seq<UserRow>, aliases: map<int, string>, email: string, password: string,
                 queryFails: bool, bcrypt: Bcrypt): (r: Result<TokenUser, AuthError>)
    ensures queryFails ==> r == Err(MysqlError)
    ensures !queryFails && |LoginRows(rows, aliases, email)| != 1 ==> r == Err(UserNotFound)
    ensures r.Ok? ==> exists row :: (row in rows && LoginMatch(row, aliases, email)
      && (forall other :: other in rows && LoginMatch(other, aliases, email) ==> other == row)
      && bcrypt.compare(password, row.password) == Some(true)
      && r.value == UserOfRow(row, aliases))
    ensures !queryFails && |LoginRows(rows, aliases, email)| == 1 ==>
      var row := LoginRows(rows, aliases, email)[0];
      r == match bcrypt.compare(password, row.password)
           case None => Err(BcryptError)
           case Some(false) => Err(WrongPassword)
           case Some(true) => Ok(UserOfRow(row, aliases))
  {
    var found := LoginRows(rows, aliases, email);
    if queryFails then Err(MysqlError)
    else if |found| != 1 then Err(UserNotFound)
    else
      var row := found[0];
      OnlyLoginRow(rows, aliases, email);
      match bcrypt.compare(password, row.password)
      case None => Err(BcryptError)
      case Some(false) => Err(WrongPassword)
      case Some(true) => Ok(UserOfRow(row, aliases))
  }

  /** `getUser`: on success stores the user record in `req.user` and calls `next()`. */
  method GetUser(req: Request, users: UserTable, aliases: map<int, string>, queryFails: bool, bcrypt: Bcrypt)
    returns (o: Outcome<AuthError>)
    modifies req`user
    ensures var r := Login(users.rows, aliases, req.body.email, req.body.password, queryFails, bcrypt);
      && (r.Ok? ==> o == Next && req.user == Some(r.value))
      && (r.Err? ==> o == Reply(r.error) && req.user == old(req.user))
  {
    var r := Login(users.rows, aliases, req.body.email, req.body.password, queryFails, bcrypt);
    if r.Ok? {
      req.user := Some(r.value);
      o := Next;
    } else {
      o := Reply(r.error);
    }
  }

  // ---------------------------------------------------------------- register

  /** The validation of `register`, in order: email, password, then the account number of students only. */
  function RegisterCheck(body: Body, rx: Validators): (r: Option<AuthError>)
    ensures !rx.email(body.email) ==> r == Some(InvalidEmail)
    ensures rx.email(body.email) && !rx.password(body.password) ==> r == Some(InvalidPassword)
    ensures rx.email(body.email) && rx.password(body.password) ==>
      (r == Some(InvalidAccountNumber) <==> body.idUserType == Some(3) && !rx.accountNum(JsText(body.accountNumber)))
    ensures r.None? <==> (rx.email(body.email) && rx.password(body.password)
      && (body.idUserType == Some(3) ==> rx.accountNum(JsText(body.accountNumber))))
  {
    if !rx.email(body.email) then Some(InvalidEmail)
    else if !rx.password(body.password) then Some(InvalidPassword)
    else if body.idUserType == Some(3) && !rx.accountNum(JsText(body.accountNumber)) then Some(InvalidAccountNumber)
    else None
  }

  /**
   * `register`: validates, hashes the password, inserts the user with its email trimmed and
   * lower-cased, and calls `next()`. Any failure replies and leaves the table as it was.
   * Every route reaches it after a `setUserType` setter, so `idUserType` is set.
   */
  method Register(req: Request, users: UserTable, rx: Validators, bcrypt: Bcrypt, insertFails: bool)
    returns (o: Outcome<AuthError>)
    requires users.Valid() && req.body.idUserType.Some?
    modifies users
    ensures users.Valid()
    ensures var b := req.body;
      && (RegisterCheck(b, rx).Some? ==> o == Reply(RegisterCheck(b, rx).value))
      && (RegisterCheck(b, rx).None? && bcrypt.hash(b.password).None? ==> o == Reply(BcryptError))
      && (RegisterCheck(b, rx).None? && bcrypt.hash(b.password).Some? && insertFails ==> o == Reply(RegisterFailed))
      && (o == Next <==> RegisterCheck(b, rx).None? && bcrypt.hash(b.password).Some? && !insertFails)
      && (o == Next ==> (users.rows == old(users.rows) + [UserRow(old(users.nextId), b.idUserType.value,
            b.names, b.surnames, NormalizeEmail(b.email), bcrypt.hash(b.password).value, b.accountNumber)]
          && users.nextId == old(users.nextId) + 1))
      && (o != Next ==> users.rows == old(users.rows) && users.nextId == old(users.nextId))
  {
    var b := req.body;
    var problem := RegisterCheck(b, rx);
    if problem.Some? {
      return Reply(problem.value);
    }
    var hash := bcrypt.hash(b.password);
    if hash.None? {
      return Reply(BcryptError);
    }
    if insertFails {
      return Reply(RegisterFailed);
    }
    var _ := users.Insert(b.idUserType.value, b.names, b.surnames, NormalizeEmail(b.email), hash.value, b.accountNumber);
    o := Next;
  }

  /**
   * A user registered with an email no other joinable row has is then the one row the login
   * query finds, for the email as typed and for any spelling that normalises to it.
   */
  lemma {:induction false} RegisteredEmailFindsNewRow(rows: seq<UserRow>, row: UserRow, aliases: map<int, string>,
                                                      typed: string, login: string)
    requires row.email == NormalizeEmail(typed) && row.idUserType in aliases
    requires NormalizeEmail(login) == NormalizeEmail(typed)
    requires forall x :: x in rows ==> !LoginMatch(x, aliases, typed)
    ensures LoginRows(rows + [row], aliases, login) == [row]
  {
    var p := x => LoginMatch(x, aliases, login);
    assert forall x :: x in rows ==> !p(x);
    WhereAppend(rows, row, p);
    assert Where(rows, p) == [];
  }

  /**
   * Registering and then logging in: once `register` has appended the row for `body` (its email
   * normalised, its password hashed) to a table with no joinable row for that email, `getUser`
   * with the same password and any spelling of the email that normalises alike admits exactly
   * that user, provided bcrypt accepts the password against its own hash.
   */
  lemma RegisterThenLogin(rows: seq<UserRow>, aliases: map<int, string>, body: Body, id: int,
                          hash: string, login: string, bcrypt: Bcrypt)
    requires body.idUserType.Some? && body.idUserType.value in aliases
    requires NormalizeEmail(login) == NormalizeEmail(body.email)
    requires forall x :: x in rows ==> !LoginMatch(x, aliases, body.email)
    requires bcrypt.compare(body.password, hash) == Some(true)
    ensures var row := UserRow(id, body.idUserType.value, body.names, body.surnames,
                               NormalizeEmail(body.email), hash, body.accountNumber);
      Login(rows + [row], aliases, login, body.password, false, bcrypt) == Ok(UserOfRow(row, aliases))
  {
    var row := UserRow(id, body.idUserType.value, body.names, body.surnames,
                       NormalizeEmail(body.email), hash, body.accountNumber);
    RegisteredEmailFindsNewRow(rows, row, aliases, body.email, login);
  }

  // ---------------------------------------------------------------- signToken

  /** `Math.floor(Date.now() / 1000)`: the issue time in whole seconds. */
  function Iat(nowMs: int): (iat: int)
    ensures iat * 1000 <= nowMs < (iat + 1) * 1000
  {
    nowMs / 1000
  }

  /** `signToken`: always records `req.iat`; on success stores the signed token and calls `next()`. */
  method SignToken(req: Request, jwt: Jwt, nowMs: int) returns (o: Outcome<AuthError>)
    modifies req`iat, req`token
    ensures req.iat == Some(Iat(nowMs))
    ensures jwt.sign(req.user).Some? ==> o == Next && req.token == jwt.sign(req.user)
    ensures jwt.sign(req.user).None? ==> o == Reply(JwtError) && req.token == old(req.token)
  {
    var signed := jwt.sign(req.user);
    req.iat := Some(Iat(nowMs));
    if signed.None? {
      o := Reply(JwtError);
    } else {
      req.token := signed;
      o := Next;
    }
  }
}
