/**
 * The login route of the username-keyed design: validate, look the user up,
 * compare the password with the stored digest, and issue a one-hour token.
 */
module LoginRoute {

  import opened Wrappers
  import opened Records
  import opened Http
  import Bcrypt
  import JsonWebToken
  import RegisterRoute

  /** The configuration the route reads: `process.env.JWT_SECRET`. */
  datatype Env = Env(jwtSecret: Option<string>)

  /** The key used when no secret is configured. */
  const DefaultKey := "YOUR_SECRET_KEY"

  /** `expiresIn: '1h'`, in seconds. */
  const TokenLifetime: nat := 60 * 60

  const MissingFields := "用户名和密码不能为空"
  const InvalidLogin := "用户名或密码无效"
  const ServerError := "服务器内部错误"

  /** `process.env.JWT_SECRET || 'YOUR_SECRET_KEY'`. */
  function SigningKey(env: Env): (key: string)
    ensures key != ""
    ensures Truthy(env.jwtSecret) ==> key == env.jwtSecret.value
    ensures !Truthy(env.jwtSecret) ==> key == DefaultKey
  {
    if Truthy(env.jwtSecret) then env.jwtSecret.value else DefaultKey
  }

  /**
   * `POST /api/auth/login`. It only reads the user table, so it is a function
   * of it: the store cannot change. `now` is the signing time; `lookupThrows`
   * says the lookup fails. A stored user without a digest makes
   * `compareSync` throw, which the route turns into 500.
   */
  function Login(users: seq<User>, request: UsernamePassword, env: Env, now: nat, lookupThrows: bool): (r: Response)
    ensures r.status in {200, 400, 401, 500}
    ensures r.status == 400 <==> request.Fields? && !RegisterRoute.FieldsGiven(request)
    ensures r.status == 401 ==> r == Response(401, Message(InvalidLogin))
    ensures r.status == 401 ==> RegisterRoute.FieldsGiven(request) && !lookupThrows
    ensures r.status == 500 ==>
      || request.Unparsable?
      || (RegisterRoute.FieldsGiven(request) && lookupThrows)
      || (RegisterRoute.FieldsGiven(request) && exists u :: u in users && u.username == request.username && u.password.None?)
    ensures request.Unparsable? || (RegisterRoute.FieldsGiven(request) && lookupThrows) ==> r.status == 500
    ensures r.status == 200 ==>
      && RegisterRoute.FieldsGiven(request) && !lookupThrows
      && exists u :: u in users && u.username == request.username && PasswordMatches(u, request.password.value)
           && r.body == TokenIssued(JsonWebToken.Sign(JsonWebToken.Claims(u.id, request.username.value),
                                                      SigningKey(env), now, TokenLifetime))
  {
    if request.Unparsable? then Response(500, Message(ServerError))
    else if !RegisterRoute.FieldsGiven(request) then Response(400, Message(MissingFields))
    else if lookupThrows then Response(500, Message(ServerError))
    else
      var username, password := request.username.value, request.password.value;
      match FindUserByUsername(users, username)
      case None => Response(401, Message(InvalidLogin))
      case Some(u) =>
        if u.password.None? then Response(500, Message(ServerError))
        else if !Bcrypt.Compare(password, u.password.value) then Response(401, Message(InvalidLogin))
        else
          var claims := JsonWebToken.Claims(u.id, u.username.value);
          Response(200, TokenIssued(JsonWebToken.Sign(claims, SigningKey(env), now, TokenLifetime)))
  }

  /**
   * On a well-formed user table, an unknown username and a wrong password get
   * the identical 401 response; the right password for a stored user gets 200
   * with a token whose claims are exactly that user's id and username, signed
   * with the configured key, valid for one hour and unreadable after it.
   */
  lemma LoginOutcomes(users: seq<User>, username: string, password: string, env: Env, now: nat)
    requires UniqueUsers(users)
    requires username != "" && password != ""
    ensures UsernameFree(users, username) ==>
      Login(users, Fields(Some(username), Some(password)), env, now, false) == Response(401, Message(InvalidLogin))
    ensures forall u :: u in users && u.username == Some(username) && u.password.Some? && !Bcrypt.Compare(password, u.password.value) ==>
      Login(users, Fields(Some(username), Some(password)), env, now, false) == Response(401, Message(InvalidLogin))
    ensures forall u :: u in users && u.username == Some(username) && u.password.None? ==>
      Login(users, Fields(Some(username), Some(password)), env, now, false) == Response(500, Message(ServerError))
    ensures forall u :: u in users && u.username == Some(username) && PasswordMatches(u, password) ==>
      var r := Login(users, Fields(Some(username), Some(password)), env, now, false);
      && r.status == 200 && r.body.TokenIssued?
      && r.body.token.claims == JsonWebToken.Claims(u.id, username)
      && JsonWebToken.Verify(r.body.token, SigningKey(env), now + TokenLifetime - 1) == Some(JsonWebToken.Claims(u.id, username))
      && JsonWebToken.Verify(r.body.token, SigningKey(env), now + TokenLifetime).None?
  {
    forall u | u in users && u.username == Some(username)
      ensures FindUserByUsername(users, username) == Some(u)
    {
      FindUserByUsernameUnique(users, u, username);
    }
  }

  /**
   * Round trip: after a successful registration of `(username, password)`,
   * logging in with the same pair passes the digest check and is issued a
   * token for the user that registration created.
   */
  lemma RegisterThenLogin(t: Tables, username: string, password: string, salt: nat, env: Env, now: nat)
    requires WellFormed(t)
    requires RegisterRoute.RegisterEffect(t, Fields(Some(username), Some(password)), salt, None).response.status == 201
    ensures var t' := RegisterRoute.RegisterEffect(t, Fields(Some(username), Some(password)), salt, None).tables;
            var r := Login(t'.users, Fields(Some(username), Some(password)), env, now, false);
      && r.status == 200
      && r.body == TokenIssued(JsonWebToken.Sign(JsonWebToken.Claims(t.nextId, username), SigningKey(env), now, TokenLifetime))
  {
    var t' := RegisterRoute.RegisterEffect(t, Fields(Some(username), Some(password)), salt, None).tables;
    var u := RegisterRoute.RegisteredUser(t.nextId, username, password, salt);
    RegisterRoute.RegisterStoresOneHashedUser(t, username, password, salt);
    assert u in t'.users;
    FindUserByUsernameUnique(t'.users, u, username);
    Bcrypt.CompareHash(password, RegisterRoute.BcryptCost, salt);
  }
}
