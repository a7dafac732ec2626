/**
 * The authentication configuration: the credentials check (`authorize`), the
 * Google federation upsert (the `signIn` callback), and the enrichment of the
 * session token and the session (the `jwt` and `session` callbacks).
 */
module Auth {

  import opened Wrappers
  import opened Records
  import Bcrypt
  import Store

  /** Lifetime of a JWT session: 30 days, in seconds. */
  const SessionMaxAge: nat := 30 * 24 * 60 * 60

  const Google := "google"

  // ================================================================ authorize

  /** What the sign-in form submits; either field may be missing. */
  datatype Credentials = Credentials(email: Option<string>, password: Option<string>)

  /** The public fields `authorize` hands back: never the password digest. */
  datatype PublicUser = PublicUser(id: Id, email: Option<string>, name: Option<string>)

  /** Thrown messages are `Rejected`; a store failure during the lookup propagates as `LookupFailed`. */
  datatype AuthorizeResult = Authorized(user: PublicUser) | Rejected(message: string) | LookupFailed

  const MissingCredentials := "请输入邮箱和密码"
  const WrongCredentials := "邮箱或密码错误"

  predicate CredentialsGiven(credentials: Option<Credentials>)
  {
    credentials.Some? && Truthy(credentials.value.email) && Truthy(credentials.value.password)
  }

  function Public(u: User): PublicUser
  {
    PublicUser(u.id, u.email, u.name)
  }

  /**
   * `authorize(credentials)`. Missing fields are rejected before the store is
   * consulted; an unknown email, a user without a password and a wrong
   * password are all rejected with one and the same message.
   */
  function Authorize(users: seq<User>, credentials: Option<Credentials>, lookupThrows: bool): (r: AuthorizeResult)
    ensures r == Rejected(MissingCredentials) <==> !CredentialsGiven(credentials)
    ensures r.Rejected? ==> r.message == MissingCredentials || r.message == WrongCredentials
    ensures r.LookupFailed? <==> CredentialsGiven(credentials) && lookupThrows
    ensures r.Authorized? ==>
      exists u :: u in users && u.email == credentials.value.email
               && PasswordMatches(u, credentials.value.password.value) && r.user == Public(u)
  {
    if !CredentialsGiven(credentials) then Rejected(MissingCredentials)
    else if lookupThrows then LookupFailed
    else
      var email, password := credentials.value.email.value, credentials.value.password.value;
      match FindUserByEmail(users, email)
      case None => Rejected(WrongCredentials)
      case Some(u) =>
        if u.password.None? then Rejected(WrongCredentials)
        else if !Bcrypt.Compare(password, u.password.value) then Rejected(WrongCredentials)
        else Authorized(Public(u))
  }

  /**
   * On a well-formed store, `authorize` succeeds exactly when the user stored
   * under that email accepts the password, and then returns that user's public
   * fields; every other given pair gets the one undifferentiated message.
   */
  lemma AuthorizeExactly(users: seq<User>, email: string, password: string)
    requires UniqueUsers(users)
    requires email != "" && password != ""
    ensures var r := Authorize(users, Some(Credentials(Some(email), Some(password))), false);
      && (forall u :: u in users && u.email == Some(email) && PasswordMatches(u, password) ==> r == Authorized(Public(u)))
      && (r.Authorized? || r == Rejected(WrongCredentials))
      && (r == Rejected(WrongCredentials) <==> !exists u :: u in users && u.email == Some(email) && PasswordMatches(u, password))
  {
    forall u | u in users && u.email == Some(email) && PasswordMatches(u, password)
      ensures Authorize(users, Some(Credentials(Some(email), Some(password))), false) == Authorized(Public(u))
    {
      FindUserByEmailUnique(users, u, email);
    }
  }

  /** The three ways a given pair can fail all produce the identical rejection. */
  lemma AuthorizeUndifferentiated(users: seq<User>, email: string, password: string)
    requires UniqueUsers(users)
    requires email != "" && password != ""
    ensures EmailFree(users, email) ==>
      Authorize(users, Some(Credentials(Some(email), Some(password))), false) == Rejected(WrongCredentials)
    ensures forall u :: u in users && u.email == Some(email) && u.password.None? ==>
      Authorize(users, Some(Credentials(Some(email), Some(password))), false) == Rejected(WrongCredentials)
    ensures forall u :: u in users && u.email == Some(email) && u.password.Some? && !Bcrypt.Compare(password, u.password.value) ==>
      Authorize(users, Some(Credentials(Some(email), Some(password))), false) == Rejected(WrongCredentials)
  {
    forall u | u in users && u.email == Some(email)
      ensures FindUserByEmail(users, email) == Some(u)
    {
      FindUserByEmailUnique(users, u, email);
    }
  }

  // ================================================================ signIn (Google federation)

  /** The user profile the identity provider reports. */
  datatype ProviderUser = ProviderUser(email: Option<string>, name: Option<string>, image: Option<string>)

  /** A JSON value of which only "is it a string?" matters. */
  datatype RawValue = Text(text: string) | NotText

  /** The account the identity provider reports, with its tokens. */
  datatype ProviderAccount = ProviderAccount(
    provider: string,
    providerAccountId: string,
    kind: string,
    refreshToken: Option<string>,
    accessToken: Option<string>,
    expiresAt: Option<int>,
    tokenType: Option<string>,
    scope: Option<string>,
    idToken: Option<string>,
    sessionState: RawValue)

  datatype SignInOutcome = SignInOutcome(allowed: bool, tables: Tables)

  predicate IsGoogle(account: Option<ProviderAccount>)
  {
    account.Some? && account.value.provider == Google
  }

  /** `email.split('@')[0]`: everything before the first '@'. */
  function LocalPart(email: string): (r: string)
    ensures '@' !in r
    ensures r <= email
    ensures |r| < |email| ==> email[|r|] == '@'
  {
    if |email| == 0 || email[0] == '@' then ""
    else
      var rest := LocalPart(email[1..]);
      assert [email[0]] + rest <= [email[0]] + email[1..];
      [email[0]] + rest
  }

  /** `user.name || email.split('@')[0]`. */
  function DisplayName(name: Option<string>, email: string): Option<string>
  {
    if Truthy(name) then name else Some(LocalPart(email))
  }

  /** The user the callback provisions for an email that has none yet. */
  function ProvisionedUser(id: Id, user: ProviderUser, email: string, now: nat): User
  {
    User(id, Some(email), None, None, DisplayName(user.name, email), Some(now), user.image)
  }

  /** The account record linking the provider identity to user `userId`. */
  function LinkedAccount(userId: Id, a: ProviderAccount): Account
  {
    Account(userId, a.kind, a.provider, a.providerAccountId, a.refreshToken, a.accessToken, a.expiresAt,
            a.tokenType, a.scope, a.idToken, if a.sessionState.Text? then Some(a.sessionState.text) else None)
  }

  /** The user the callback resolves for `email` in tables `t`: the stored one, or the one it provisions. */
  function ResolvedUser(t: Tables, user: ProviderUser, email: string, now: nat): User
  {
    var found := FindUserByEmail(t.users, email);
    if found.Some? then found.value else ProvisionedUser(t.nextId, user, email, now)
  }

  /** The tables after the user step: unchanged when the email is stored, else with the provisioned user. */
  function WithUser(t: Tables, user: ProviderUser, email: string, now: nat): (t1: Tables)
    ensures ResolvedUser(t, user, email, now) in t1.users
  {
    if FindUserByEmail(t.users, email).Some? then t else InsertUser(t, ProvisionedUser(t.nextId, user, email, now))
  }

  /** The tables after the account step: unchanged when the identity is linked, else with the new link. */
  function WithAccount(t1: Tables, userId: Id, a: ProviderAccount): (t2: Tables)
    ensures !AccountKeyFree(t2.accounts, a.provider, a.providerAccountId)
  {
    if FindAccount(t1.accounts, a.provider, a.providerAccountId).Some? then t1
    else
      var t2 := InsertAccount(t1, LinkedAccount(userId, a));
      assert LinkedAccount(userId, a) in t2.accounts;
      t2
  }

  /**
   * The `signIn` callback as a function of the tables before it runs: whether
   * sign-in is allowed, and the tables after it. Each step that can throw is
   * a point where `fault` may stop it; what was written before stays written.
   */
  function SignInEffect(t: Tables, user: ProviderUser, account: Option<ProviderAccount>, now: nat,
                        fault: Option<StoreCall>): (o: SignInOutcome)
    ensures !IsGoogle(account) ==> o == SignInOutcome(true, t)
    ensures IsGoogle(account) && !Truthy(user.email) ==> o == SignInOutcome(false, t)
    ensures o.tables.entries == t.entries
    ensures |t.users| <= |o.tables.users| <= |t.users| + 1 && o.tables.users[..|t.users|] == t.users
    ensures |t.accounts| <= |o.tables.accounts| <= |t.accounts| + 1 && o.tables.accounts[..|t.accounts|] == t.accounts
  {
    if !IsGoogle(account) then SignInOutcome(true, t)
    else if !Truthy(user.email) then SignInOutcome(false, t)
    else if Throws(fault, UserLookup) then SignInOutcome(false, t)
    else
      var email, a := user.email.value, account.value;
      if FindUserByEmail(t.users, email).None? && Throws(fault, UserInsert) then SignInOutcome(false, t)
      else
        var t1 := WithUser(t, user, email, now);
        if Throws(fault, AccountLookup) then SignInOutcome(false, t1)
        else if FindAccount(t1.accounts, a.provider, a.providerAccountId).None? && Throws(fault, AccountInsert) then
          SignInOutcome(false, t1)
        else SignInOutcome(true, WithAccount(t1, ResolvedUser(t, user, email, now).id, a))
  }

  /** The callback itself, run against the store. */
  method SignIn(db: Store.Database, user: ProviderUser, account: Option<ProviderAccount>, now: nat,
                fault: Option<StoreCall>)
    returns (allowed: bool)
    requires db.Valid()
    modifies db
    ensures db.Valid()
    ensures SignInOutcome(allowed, db.Snapshot()) == SignInEffect(old(db.Snapshot()), user, account, now, fault)
  {
    if !IsGoogle(account) {
      return true;
    }
    var a := account.value;
    if !Truthy(user.email) {
      return false;
    }
    var email := user.email.value;
    if Throws(fault, UserLookup) {
      return false;
    }
    var dbUser := FindUserByEmail(db.users, email);
    if dbUser.None? {
      if Throws(fault, UserInsert) {
        return false;
      }
      var created := db.CreateUser(Some(email), None, None, DisplayName(user.name, email), Some(now), user.image);
      dbUser := Some(created);
    }
    assert dbUser.value in db.users;
    if Throws(fault, AccountLookup) {
      return false;
    }
    var existing := FindAccount(db.accounts, a.provider, a.providerAccountId);
    if existing.None? {
      if Throws(fault, AccountInsert) {
        return false;
      }
      db.CreateAccount(LinkedAccount(dbUser.value.id, a));
    }
    return true;
  }

  /**
   * For a new email, exactly one user is provisioned: it has the given email,
   * the given name or else the part of the email before '@', a verification
   * time, no password, and an id no stored record has. An existing user is
   * reused and the user table is left as it was.
   */
  lemma SignInProvisionsOrReuses(t: Tables, user: ProviderUser, account: Option<ProviderAccount>, now: nat,
                                 fault: Option<StoreCall>)
    requires WellFormed(t)
    requires IsGoogle(account) && Truthy(user.email)
    requires fault != Some(UserLookup) && fault != Some(UserInsert)
    ensures var o := SignInEffect(t, user, account, now, fault);
            var email := user.email.value;
      && (!EmailFree(t.users, email) ==> o.tables.users == t.users)
      && (EmailFree(t.users, email) ==>
            exists u :: o.tables.users == t.users + [u]
              && u.email == Some(email) && u.password.None? && u.emailVerified == Some(now)
              && u.name == Some(if Truthy(user.name) then user.name.value else LocalPart(email))
              && !HasUser(t.users, u.id)
              && (forall a :: a in t.accounts ==> a.userId != u.id))
  {
    var email := user.email.value;
    if EmailFree(t.users, email) {
      var u := ProvisionedUser(t.nextId, user, email, now);
      assert !HasUser(t.users, u.id);
      assert forall a :: a in t.accounts ==> a.userId != u.id;
    }
  }

  /**
   * For a new email, when no account gets linked (the link exists already,
   * or its insert throws), the only change is the provisioned user.
   */
  lemma SignInNewEmailUnlinked(t: Tables, user: ProviderUser, account: Option<ProviderAccount>, now: nat,
                               fault: Option<StoreCall>)
    requires IsGoogle(account) && Truthy(user.email) && EmailFree(t.users, user.email.value)
    requires (fault == None && !AccountKeyFree(t.accounts, Google, account.value.providerAccountId))
             || (fault == Some(AccountInsert) && AccountKeyFree(t.accounts, Google, account.value.providerAccountId))
    ensures var o := SignInEffect(t, user, account, now, fault);
      && o.allowed == (fault == None)
      && o.tables == InsertUser(t, ProvisionedUser(t.nextId, user, user.email.value, now))
  {
  }

  /**
   * An account is added only for a provider identity that is not linked yet,
   * and it links that identity to the resolved user; a linked identity is
   * never linked twice.
   */
  lemma SignInLinksOnlyNewIdentity(t: Tables, user: ProviderUser, account: Option<ProviderAccount>, now: nat)
    requires IsGoogle(account) && Truthy(user.email)
    ensures var o := SignInEffect(t, user, account, now, None);
            var a := account.value;
      && o.allowed
      && ResolvedUser(t, user, user.email.value, now) in o.tables.users
      && (!AccountKeyFree(t.accounts, Google, a.providerAccountId) ==> o.tables.accounts == t.accounts)
      && (AccountKeyFree(t.accounts, Google, a.providerAccountId) ==>
            o.tables.accounts == t.accounts + [LinkedAccount(ResolvedUser(t, user, user.email.value, now).id, a)])
  {
  }

  /** Every store failure the callback reaches turns into "sign-in refused". */
  lemma SignInFailuresRefuse(t: Tables, user: ProviderUser, account: Option<ProviderAccount>, now: nat, call: StoreCall)
    requires IsGoogle(account) && Truthy(user.email)
    requires call == UserLookup || call == AccountLookup
             || (call == UserInsert && EmailFree(t.users, user.email.value))
             || (call == AccountInsert && AccountKeyFree(t.accounts, Google, account.value.providerAccountId))
    ensures !SignInEffect(t, user, account, now, Some(call)).allowed
  {
    if call == AccountInsert && !EmailFree(t.users, user.email.value) {
      assert FindUserByEmail(t.users, user.email.value).Some?;
    }
  }

  lemma WithUserWellFormed(t: Tables, user: ProviderUser, email: string, now: nat)
    requires WellFormed(t)
    ensures WellFormed(WithUser(t, user, email, now))
  {
    if FindUserByEmail(t.users, email).None? {
      InsertUserWellFormed(t, ProvisionedUser(t.nextId, user, email, now));
    }
  }

  lemma WithAccountWellFormed(t1: Tables, userId: Id, a: ProviderAccount)
    requires WellFormed(t1) && HasUser(t1.users, userId)
    ensures WellFormed(WithAccount(t1, userId, a))
  {
    if FindAccount(t1.accounts, a.provider, a.providerAccountId).None? {
      InsertAccountWellFormed(t1, LinkedAccount(userId, a));
    }
  }

  /** The callback keeps the store's constraints. */
  lemma SignInWellFormed(t: Tables, user: ProviderUser, account: Option<ProviderAccount>, now: nat,
                         fault: Option<StoreCall>)
    requires WellFormed(t)
    ensures WellFormed(SignInEffect(t, user, account, now, fault).tables)
  {
    if IsGoogle(account) && Truthy(user.email) {
      var email := user.email.value;
      var u := ResolvedUser(t, user, email, now);
      WithUserWellFormed(t, user, email, now);
      assert HasUser(WithUser(t, user, email, now).users, u.id);
      WithAccountWellFormed(WithUser(t, user, email, now), u.id, account.value);
    }
  }

  /**
   * Idempotence: running the callback a second time with the same provider
   * data, on the tables the first run left, allows the same sign-in and
   * changes nothing.
   */
  lemma SignInIdempotent(t: Tables, user: ProviderUser, account: Option<ProviderAccount>, now: nat, later: nat)
    ensures var o := SignInEffect(t, user, account, now, None);
            SignInEffect(o.tables, user, account, later, None) == o
  {
    var o := SignInEffect(t, user, account, now, None);
    if IsGoogle(account) && Truthy(user.email) {
      var email, a := user.email.value, account.value;
      var dbUser := ResolvedUser(t, user, email, now);
      assert dbUser in o.tables.users;
      assert !EmailFree(o.tables.users, email);
      if FindAccount(t.accounts, a.provider, a.providerAccountId).None? {
        assert LinkedAccount(dbUser.id, a) in o.tables.accounts;
      } else {
        assert FindAccount(t.accounts, a.provider, a.providerAccountId).value in o.tables.accounts;
      }
      assert !AccountKeyFree(o.tables.accounts, a.provider, a.providerAccountId);
    }
  }

  /** After a successful Google sign-in there is exactly one user with that email and one account with that key. */
  lemma SignInLeavesExactlyOne(t: Tables, user: ProviderUser, account: Option<ProviderAccount>, now: nat)
    requires WellFormed(t)
    requires IsGoogle(account) && Truthy(user.email)
    ensures var o := SignInEffect(t, user, account, now, None);
      && o.allowed
      && ExactlyOneUserWithEmail(o.tables.users, user.email.value)
      && ExactlyOneAccountWithKey(o.tables.accounts, Google, account.value.providerAccountId)
  {
    var o := SignInEffect(t, user, account, now, None);
    SignInWellFormed(t, user, account, now, None);
    SignInIdempotent(t, user, account, now, now);
    var email, a := user.email.value, account.value;
    var u :| u in o.tables.users && u.email == Some(email);
    var i :| 0 <= i < |o.tables.users| && o.tables.users[i] == u;
    UniqueEmailIsExactlyOne(o.tables.users, i);
    var acc := FindAccount(o.tables.accounts, a.provider, a.providerAccountId).value;
    var k :| 0 <= k < |o.tables.accounts| && o.tables.accounts[k] == acc;
    UniqueKeyIsExactlyOne(o.tables.accounts, k);
  }

  // ================================================================ jwt and session callbacks

  /** The session token (a JWT the framework keeps in a cookie) with the fields the callbacks set. */
  class Token {
    var id: Option<Id>
    var email: Option<string>
    var name: Option<string>

    /** The token the framework starts from after a sign-in. */
    constructor (email: Option<string>, name: Option<string>)
      ensures this.id == None && this.email == email && this.name == name
    {
      this.id, this.email, this.name := None, email, name;
    }
  }

  /**
   * `jwt({ token, user })`. When the signed-in user has an email that the
   * store knows, the token takes that stored user's id, email and name;
   * otherwise the token is returned as it was. `ok` is false when the lookup
   * throws (the error propagates and the token is not updated).
   */
  method JwtCallback(token: Token, userEmail: Option<string>, db: Store.Database, lookupThrows: bool)
    returns (ok: bool)
    modifies token
    ensures ok <==> !(Truthy(userEmail) && lookupThrows)
    ensures
      if Truthy(userEmail) && !lookupThrows && FindUserByEmail(db.users, userEmail.value).Some? then
        var u := FindUserByEmail(db.users, userEmail.value).value;
        token.id == Some(u.id) && token.email == u.email && token.name == u.name
      else
        unchanged(token)
  {
    ok := true;
    if Truthy(userEmail) {
      if lookupThrows {
        return false;
      }
      var dbUser := FindUserByEmail(db.users, userEmail.value);
      if dbUser.Some? {
        token.id, token.email, token.name := Some(dbUser.value.id), dbUser.value.email, dbUser.value.name;
      }
    }
  }

  /** The user part of a session as the routes read it. */
  datatype SessionUserData = SessionUserData(id: Option<Id>, name: Option<string>, email: Option<string>)

  datatype SessionData = SessionData(user: Option<SessionUserData>)

  class SessionUser {
    var id: Option<Id>
    var name: Option<string>
    var email: Option<string>

    constructor (name: Option<string>, email: Option<string>)
      ensures this.id == None && this.name == name && this.email == email
    {
      this.id, this.name, this.email := None, name, email;
    }
  }

  class Session {
    var user: SessionUser?

    constructor (user: SessionUser?)
      ensures this.user == user
    {
      this.user := user;
    }

    function Data(): SessionData
      reads this, user
    {
      if user == null then SessionData(None) else SessionData(Some(SessionUserData(user.id, user.name, user.email)))
    }
  }

  /** `session({ session, token })`: the session's user, when there is one, takes the token's id. */
  method SessionCallback(session: Session, token: Token)
    modifies session.user
    ensures session.user == old(session.user)
    ensures session.user != null ==>
      && session.user.id == token.id
      && session.user.name == old(session.user.name) && session.user.email == old(session.user.email)
  {
    if session.user != null {
      session.user.id := token.id;
    }
  }
}
