/**
 * The three tables of the vault's record store (users, linked accounts and
 * password entries), the store's own constraints, and the lookups the handlers
 * make against it.
 *
 * Record ids are opaque unique strings generated by the store; here they are
 * natural numbers drawn from a counter the store keeps (`nextId`), which makes
 * "a new record has an id no other record has" a checkable fact.
 */
module Records {

  import opened Wrappers
  import Bcrypt

  type Id = nat

  /** A JSON string field as a JavaScript `if (!field)` test sees it: present and non-empty. */
  predicate Truthy(s: Option<string>)
  {
    s.Some? && s.value != ""
  }

  /**
   * One user. The username-keyed design (register/login routes) fills
   * `username`; the email-keyed design (sign-in callbacks) fills `email`.
   * `password` is absent for a user created by federated sign-in.
   */
  datatype User = User(
    id: Id,
    email: Option<string>,
    username: Option<string>,
    password: Option<Bcrypt.Digest>,
    name: Option<string>,
    emailVerified: Option<nat>,
    image: Option<string>)

  /** Does the stored user accept this password? A user without a digest accepts none. */
  predicate PasswordMatches(u: User, password: string)
  {
    u.password.Some? && Bcrypt.Compare(password, u.password.value)
  }

  /** A linked external identity; `(provider, providerAccountId)` is its unique key. */
  datatype Account = Account(
    userId: Id,
    kind: string,
    provider: string,
    providerAccountId: string,
    refreshToken: Option<string>,
    accessToken: Option<string>,
    expiresAt: Option<int>,
    tokenType: Option<string>,
    scope: Option<string>,
    idToken: Option<string>,
    sessionState: Option<string>)

  /** A vault entry: one stored (website, username, password) triple owned by a user. */
  datatype Entry = Entry(id: Id, userId: Id, website: string, username: string, password: string, createdAt: nat)

  datatype Tables = Tables(users: seq<User>, accounts: seq<Account>, entries: seq<Entry>, nextId: Id)

  /** The store calls a handler makes; a fault names the one that throws when it is reached. */
  datatype StoreCall = UserLookup | UserInsert | AccountLookup | AccountInsert | EntryQuery | EntryInsert

  predicate Throws(fault: Option<StoreCall>, call: StoreCall)
  {
    fault == Some(call)
  }

  // ---------------------------------------------------------------- constraints

  predicate HasUser(users: seq<User>, id: Id)
  {
    exists u :: u in users && u.id == id
  }

  predicate EmailFree(users: seq<User>, email: string)
  {
    forall u :: u in users ==> u.email != Some(email)
  }

  predicate UsernameFree(users: seq<User>, username: string)
  {
    forall u :: u in users ==> u.username != Some(username)
  }

  predicate AccountKeyFree(accounts: seq<Account>, provider: string, providerAccountId: string)
  {
    forall a :: a in accounts ==> !(a.provider == provider && a.providerAccountId == providerAccountId)
  }

  predicate UniqueUsers(users: seq<User>)
  {
    forall i, j :: 0 <= i < j < |users| ==>
      && users[i].id != users[j].id
      && (users[i].email.Some? ==> users[i].email != users[j].email)
      && (users[i].username.Some? ==> users[i].username != users[j].username)
  }

  predicate UniqueAccountKeys(accounts: seq<Account>)
  {
    forall i, j :: 0 <= i < j < |accounts| ==>
      !(accounts[i].provider == accounts[j].provider && accounts[i].providerAccountId == accounts[j].providerAccountId)
  }

  predicate UniqueEntryIds(entries: seq<Entry>)
  {
    forall i, j :: 0 <= i < j < |entries| ==> entries[i].id != entries[j].id
  }

  /**
   * The store's constraints: unique user ids, emails and usernames, unique
   * account keys and entry ids, every account and entry owned by a stored user
   * (the foreign keys), and every id drawn below the counter.
   */
  predicate WellFormed(t: Tables)
  {
    && UniqueUsers(t.users)
    && UniqueAccountKeys(t.accounts)
    && UniqueEntryIds(t.entries)
    && (forall u :: u in t.users ==> u.id < t.nextId)
    && (forall e :: e in t.entries ==> e.id < t.nextId)
    && (forall a :: a in t.accounts ==> HasUser(t.users, a.userId))
    && (forall e :: e in t.entries ==> HasUser(t.users, e.userId))
  }

  // ---------------------------------------------------------------- lookups

  /** `findUnique({ where: { email } })`. */
  function FindUserByEmail(users: seq<User>, email: string): (r: Option<User>)
    ensures r.Some? ==> r.value in users && r.value.email == Some(email)
    ensures r.None? <==> EmailFree(users, email)
  {
    if |users| == 0 then None
    else if users[0].email == Some(email) then Some(users[0])
    else
      var r := FindUserByEmail(users[1..], email);
      assert forall u :: u in users ==> u == users[0] || u in users[1..];
      r
  }

  /** `findUnique({ where: { username } })`. */
  function FindUserByUsername(users: seq<User>, username: string): (r: Option<User>)
    ensures r.Some? ==> r.value in users && r.value.username == Some(username)
    ensures r.None? <==> UsernameFree(users, username)
  {
    if |users| == 0 then None
    else if users[0].username == Some(username) then Some(users[0])
    else
      var r := FindUserByUsername(users[1..], username);
      assert forall u :: u in users ==> u == users[0] || u in users[1..];
      r
  }

  /** `findUnique({ where: { provider_providerAccountId } })`. */
  function FindAccount(accounts: seq<Account>, provider: string, providerAccountId: string): (r: Option<Account>)
    ensures r.Some? ==> r.value in accounts && r.value.provider == provider && r.value.providerAccountId == providerAccountId
    ensures r.None? <==> AccountKeyFree(accounts, provider, providerAccountId)
  {
    if |accounts| == 0 then None
    else if accounts[0].provider == provider && accounts[0].providerAccountId == providerAccountId then Some(accounts[0])
    else
      var r := FindAccount(accounts[1..], provider, providerAccountId);
      assert forall a :: a in accounts ==> a == accounts[0] || a in accounts[1..];
      r
  }

  /** On a well-formed user table the email lookup finds THE user with that email. */
  lemma {:induction false} FindUserByEmailUnique(users: seq<User>, u: User, email: string)
    requires UniqueUsers(users)
    requires u in users && u.email == Some(email)
    ensures FindUserByEmail(users, email) == Some(u)
  {
    if users[0] != u {
      assert users[0].email != Some(email) by {
        var j :| 0 <= j < |users| && users[j] == u;
        assert j != 0;
      }
      assert u in users[1..];
      FindUserByEmailUnique(users[1..], u, email);
    }
  }

  /** On a well-formed user table the username lookup finds THE user with that username. */
  lemma {:induction false} FindUserByUsernameUnique(users: seq<User>, u: User, username: string)
    requires UniqueUsers(users)
    requires u in users && u.username == Some(username)
    ensures FindUserByUsername(users, username) == Some(u)
  {
    if users[0] != u {
      assert users[0].username != Some(username) by {
        var j :| 0 <= j < |users| && users[j] == u;
        assert j != 0;
      }
      assert u in users[1..];
      FindUserByUsernameUnique(users[1..], u, username);
    }
  }

  /** `passwordEntry.findMany({ where: { userId: owner } })`: the owner's entries, each as often as it is stored, and no other. */
  function Owned(entries: seq<Entry>, owner: Id): (r: seq<Entry>)
    ensures forall e :: multiset(r)[e] == if e.userId == owner then multiset(entries)[e] else 0
    ensures forall e :: e in r <==> e in entries && e.userId == owner
  {
    if entries == [] then []
    else
      var rest := Owned(entries[1..], owner);
      assert entries == [entries[0]] + entries[1..];
      if entries[0].userId == owner then [entries[0]] + rest else rest
  }

  /** Appending an entry of another owner does not change what an owner's query returns. */
  lemma {:induction false} OwnedIgnoresOthers(entries: seq<Entry>, e: Entry, owner: Id)
    requires e.userId != owner
    ensures Owned(entries + [e], owner) == Owned(entries, owner)
  {
    if entries != [] {
      assert (entries + [e])[1..] == entries[1..] + [e];
      OwnedIgnoresOthers(entries[1..], e, owner);
    }
  }

  // ---------------------------------------------------------------- inserts

  /** `user.create`: the new user takes the next id. */
  function InsertUser(t: Tables, u: User): (t': Tables)
    requires u.id == t.nextId
    ensures t'.users == t.users + [u] && t'.nextId == t.nextId + 1
    ensures t'.accounts == t.accounts && t'.entries == t.entries
  {
    t.(users := t.users + [u], nextId := t.nextId + 1)
  }

  /** `account.create`. */
  function InsertAccount(t: Tables, a: Account): (t': Tables)
    ensures t'.accounts == t.accounts + [a]
    ensures t'.users == t.users && t'.entries == t.entries && t'.nextId == t.nextId
  {
    t.(accounts := t.accounts + [a])
  }

  /** `passwordEntry.create`: the new entry takes the next id. */
  function InsertEntry(t: Tables, e: Entry): (t': Tables)
    requires e.id == t.nextId
    ensures t'.entries == t.entries + [e] && t'.nextId == t.nextId + 1
    ensures t'.users == t.users && t'.accounts == t.accounts
  {
    t.(entries := t.entries + [e], nextId := t.nextId + 1)
  }

  lemma HasUserGrows(users: seq<User>, u: User, id: Id)
    requires HasUser(users, id)
    ensures HasUser(users + [u], id)
  {
    var w :| w in users && w.id == id;
    assert w in users + [u];
  }

  /** A user whose email and username are free keeps the store well formed. */
  lemma InsertUserWellFormed(t: Tables, u: User)
    requires WellFormed(t) && u.id == t.nextId
    requires u.email.Some? ==> EmailFree(t.users, u.email.value)
    requires u.username.Some? ==> UsernameFree(t.users, u.username.value)
    ensures WellFormed(InsertUser(t, u))
  {
    var t' := InsertUser(t, u);
    forall i, j | 0 <= i < j < |t'.users|
      ensures t'.users[i].id != t'.users[j].id
      ensures t'.users[i].email.Some? ==> t'.users[i].email != t'.users[j].email
      ensures t'.users[i].username.Some? ==> t'.users[i].username != t'.users[j].username
    {
      if j == |t.users| {
        assert t'.users[i] in t.users;
      }
    }
    forall a | a in t'.accounts ensures HasUser(t'.users, a.userId) {
      HasUserGrows(t.users, u, a.userId);
    }
    forall e | e in t'.entries ensures HasUser(t'.users, e.userId) {
      HasUserGrows(t.users, u, e.userId);
    }
  }

  /** An account with a free key and a stored owner keeps the store well formed. */
  lemma InsertAccountWellFormed(t: Tables, a: Account)
    requires WellFormed(t)
    requires AccountKeyFree(t.accounts, a.provider, a.providerAccountId)
    requires HasUser(t.users, a.userId)
    ensures WellFormed(InsertAccount(t, a))
  {
    var t' := InsertAccount(t, a);
    forall i, j | 0 <= i < j < |t'.accounts|
      ensures !(t'.accounts[i].provider == t'.accounts[j].provider
                && t'.accounts[i].providerAccountId == t'.accounts[j].providerAccountId)
    {
      if j == |t.accounts| {
        assert t'.accounts[i] in t.accounts;
      }
    }
  }

  /** An entry with a stored owner keeps the store well formed. */
  lemma InsertEntryWellFormed(t: Tables, e: Entry)
    requires WellFormed(t) && e.id == t.nextId
    requires HasUser(t.users, e.userId)
    ensures WellFormed(InsertEntry(t, e))
  {
    var t' := InsertEntry(t, e);
    forall i, j | 0 <= i < j < |t'.entries| ensures t'.entries[i].id != t'.entries[j].id {
      if j == |t.entries| {
        assert t'.entries[i] in t.entries;
      }
    }
  }

  // ---------------------------------------------------------------- exactly one

  predicate ExactlyOneUserWithEmail(users: seq<User>, email: string)
  {
    exists i :: 0 <= i < |users| && users[i].email == Some(email)
      && forall j :: 0 <= j < |users| && users[j].email == Some(email) ==> j == i
  }

  predicate ExactlyOneAccountWithKey(accounts: seq<Account>, provider: string, providerAccountId: string)
  {
    exists i :: 0 <= i < |accounts| && accounts[i].provider == provider && accounts[i].providerAccountId == providerAccountId
      && forall j :: (0 <= j < |accounts| && accounts[j].provider == provider
                      && accounts[j].providerAccountId == providerAccountId) ==> j == i
  }

  /** Under the uniqueness constraint, a stored email is held by exactly one user. */
  lemma UniqueEmailIsExactlyOne(users: seq<User>, i: nat)
    requires UniqueUsers(users) && i < |users| && users[i].email.Some?
    ensures ExactlyOneUserWithEmail(users, users[i].email.value)
  {
    forall j | 0 <= j < |users| && users[j].email == users[i].email ensures j == i {
    }
  }

  /** Under the uniqueness constraint, a linked key is held by exactly one account. */
  lemma UniqueKeyIsExactlyOne(accounts: seq<Account>, i: nat)
    requires UniqueAccountKeys(accounts) && i < |accounts|
    ensures ExactlyOneAccountWithKey(accounts, accounts[i].provider, accounts[i].providerAccountId)
  {
  }
}
