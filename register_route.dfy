/**
 * The registration route of the username-keyed design: validate, reject a
 * taken username, hash the password at a fixed cost and store the new user.
 */
module RegisterRoute {

  import opened Wrappers
  import opened Records
  import opened Http
  import Bcrypt
  import Store

  /** The bcrypt work factor the route hashes with. */
  const BcryptCost: nat := 10

  const MissingFields := "用户名和密码不能为空"
  const UsernameTaken := "用户名已存在"
  const Registered := "用户注册成功"
  const ServerError := "服务器内部错误"

  predicate FieldsGiven(request: UsernamePassword)
  {
    request.Fields? && Truthy(request.username) && Truthy(request.password)
  }

  /** The user the route stores: the username and the salted digest of the password, nothing else. */
  function RegisteredUser(id: Id, username: string, password: string, salt: nat): User
  {
    User(id, None, Some(username), Some(Bcrypt.HashSync(password, BcryptCost, salt)), None, None, None)
  }

  /**
   * `POST /api/auth/register` as a function of the tables before it: the
   * response and the tables after it. `salt` is the randomness of
   * `hashSync`; `fault` names the store call that throws, if any.
   */
  function RegisterEffect(t: Tables, request: UsernamePassword, salt: nat, fault: Option<StoreCall>): (o: RouteOutcome)
    ensures o.response.status in {201, 400, 409, 500}
    ensures o.response.status == 400 <==> request.Fields? && !FieldsGiven(request)
    ensures o.response.status == 409 <==>
      FieldsGiven(request) && !Throws(fault, UserLookup) && !UsernameFree(t.users, request.username.value)
    ensures o.response.status == 201 <==>
      FieldsGiven(request) && !Throws(fault, UserLookup) && UsernameFree(t.users, request.username.value)
      && !Throws(fault, UserInsert)
    ensures o.response.status != 201 ==> o.tables == t
    ensures o.response.status == 201 ==>
      && o.response.body == Message(Registered)
      && o.tables == InsertUser(t, RegisteredUser(t.nextId, request.username.value, request.password.value, salt))
  {
    if request.Unparsable? then RouteOutcome(Response(500, Message(ServerError)), t)
    else if !FieldsGiven(request) then RouteOutcome(Response(400, Message(MissingFields)), t)
    else if Throws(fault, UserLookup) then RouteOutcome(Response(500, Message(ServerError)), t)
    else if FindUserByUsername(t.users, request.username.value).Some? then RouteOutcome(Response(409, Message(UsernameTaken)), t)
    else if Throws(fault, UserInsert) then RouteOutcome(Response(500, Message(ServerError)), t)
    else
      var u := RegisteredUser(t.nextId, request.username.value, request.password.value, salt);
      RouteOutcome(Response(201, Message(Registered)), InsertUser(t, u))
  }

  /** The route run against the store. */
  method Register(db: Store.Database, request: UsernamePassword, salt: nat, fault: Option<StoreCall>)
    returns (response: Response)
    requires db.Valid()
    modifies db
    ensures db.Valid()
    ensures RouteOutcome(response, db.Snapshot()) == RegisterEffect(old(db.Snapshot()), request, salt, fault)
  {
    if request.Unparsable? {
      return Response(500, Message(ServerError));
    }
    if !Truthy(request.username) || !Truthy(request.password) {
      return Response(400, Message(MissingFields));
    }
    var username, password := request.username.value, request.password.value;
    if Throws(fault, UserLookup) {
      return Response(500, Message(ServerError));
    }
    var existing := FindUserByUsername(db.users, username);
    if existing.Some? {
      return Response(409, Message(UsernameTaken));
    }
    var digest := Bcrypt.HashSync(password, BcryptCost, salt);
    if Throws(fault, UserInsert) {
      return Response(500, Message(ServerError));
    }
    var _ := db.CreateUser(None, Some(username), Some(digest), None, None, None);
    return Response(201, Message(Registered));
  }

  /**
   * A successful registration adds exactly one user: it holds the username,
   * a fresh id, and a cost-10 digest that accepts the password; no email,
   * name or verification is set, and the response echoes neither password
   * nor digest.
   */
  lemma RegisterStoresOneHashedUser(t: Tables, username: string, password: string, salt: nat)
    requires WellFormed(t)
    requires username != "" && password != "" && UsernameFree(t.users, username)
    ensures var o := RegisterEffect(t, Fields(Some(username), Some(password)), salt, None);
      && o.response == Response(201, Message(Registered))
      && |o.tables.users| == |t.users| + 1
      && WellFormed(o.tables)
      && var u := o.tables.users[|t.users|];
         && u.username == Some(username) && !HasUser(t.users, u.id)
         && u.password.Some? && u.password.value.cost == BcryptCost && Bcrypt.Compare(password, u.password.value)
         && u.email.None? && u.name.None? && u.emailVerified.None?
  {
    var u := RegisteredUser(t.nextId, username, password, salt);
    InsertUserWellFormed(t, u);
    assert !HasUser(t.users, u.id);
    Bcrypt.CompareHash(password, BcryptCost, salt);
  }

  /** A taken username is refused with 409 and the user table is left exactly as it was. */
  lemma RegisterDuplicateConflicts(t: Tables, u: User, password: Option<string>, salt: nat)
    requires u in t.users && u.username.Some? && u.username.value != ""
    ensures var o := RegisterEffect(t, Fields(u.username, password), salt, None);
      o.response.status == 409 || o.response.status == 400
    ensures Truthy(password) ==>
      RegisterEffect(t, Fields(u.username, password), salt, None) == RouteOutcome(Response(409, Message(UsernameTaken)), t)
  {
    assert !UsernameFree(t.users, u.username.value);
  }
}
