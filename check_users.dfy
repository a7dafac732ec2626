/**
 * The user-diagnostics script: it loads every user with their linked accounts
 * and vault entries and classifies them (Google users, password users, users
 * with neither a password nor a linked account) and counts the entries.
 * The printing is left out; what it prints is the `Report`.
 */
module CheckUsers {

  import opened Wrappers
  import opened Records
  import Auth

  /** A user as `findMany({ include: { passwords: true, accounts: true } })` returns it. */
  datatype UserView = UserView(user: User, accounts: seq<Account>, passwords: seq<Entry>)

  /** The accounts linked to user `id`. */
  function AccountsOf(accounts: seq<Account>, id: Id): (r: seq<Account>)
    ensures forall a :: a in r <==> a in accounts && a.userId == id
  {
    if accounts == [] then []
    else
      var rest := AccountsOf(accounts[1..], id);
      assert forall a :: a in accounts <==> a == accounts[0] || a in accounts[1..];
      if accounts[0].userId == id then [accounts[0]] + rest else rest
  }

  function ViewOf(u: User, accounts: seq<Account>, entries: seq<Entry>): UserView
  {
    UserView(u, AccountsOf(accounts, u.id), Owned(entries, u.id))
  }

  /** The users in stored order, each with its own accounts and entries. */
  function JoinUsers(users: seq<User>, accounts: seq<Account>, entries: seq<Entry>): (vs: seq<UserView>)
    ensures |vs| == |users|
    ensures forall i :: 0 <= i < |users| ==> vs[i] == ViewOf(users[i], accounts, entries)
  {
    if users == [] then [] else [ViewOf(users[0], accounts, entries)] + JoinUsers(users[1..], accounts, entries)
  }

  function Join(t: Tables): seq<UserView>
  {
    JoinUsers(t.users, t.accounts, t.entries)
  }

  /** `array.filter(p)`: the elements satisfying `p`, each as often as it occurs, in order. */
  function Filter(s: seq<UserView>, p: UserView -> bool): (r: seq<UserView>)
    ensures |r| <= |s|
    ensures forall x :: x in r <==> x in s && p(x)
  {
    if s == [] then []
    else
      var rest := Filter(s[1..], p);
      assert forall x :: x in s <==> x == s[0] || x in s[1..];
      if p(s[0]) then [s[0]] + rest else rest
  }

  /** `u.accounts.some(a => a.provider === 'google')`. */
  predicate HasGoogleAccount(v: UserView)
  {
    exists a :: a in v.accounts && a.provider == Auth.Google
  }

  /** `u.password !== null`. */
  predicate HasPassword(v: UserView)
  {
    v.user.password.Some?
  }

  /** `u.password === null && u.accounts.length === 0`: a user nobody can sign in as. */
  predicate IsOrphan(v: UserView)
  {
    v.user.password.None? && |v.accounts| == 0
  }

  function GoogleUsers(vs: seq<UserView>): seq<UserView>
  {
    Filter(vs, HasGoogleAccount)
  }

  function CredentialUsers(vs: seq<UserView>): seq<UserView>
  {
    Filter(vs, HasPassword)
  }

  function UsersWithoutAccounts(vs: seq<UserView>): seq<UserView>
  {
    Filter(vs, IsOrphan)
  }

  /** `users.reduce((sum, u) => sum + u.passwords.length, 0)`. */
  function TotalPasswords(vs: seq<UserView>): nat
  {
    if vs == [] then 0 else |vs[0].passwords| + TotalPasswords(vs[1..])
  }

  /** What the script reports: nothing for an empty table, the statistics otherwise, or the query failure. */
  datatype Report =
    | NoUsers
    | Statistics(googleUsers: nat, credentialUsers: nat, totalPasswords: nat, usersWithoutAccounts: seq<UserView>)
    | QueryFailed

  /**
   * The script's decisions. An empty user table returns before any statistic
   * is computed. The password users and the users without any sign-in method
   * are disjoint, so together they never outnumber the users, and on a
   * well-formed store the entry total is the number of stored entries.
   */
  function Check(t: Tables, queryThrows: bool): (r: Report)
    ensures r.QueryFailed? <==> queryThrows
    ensures r.NoUsers? <==> !queryThrows && |t.users| == 0
    ensures r.Statistics? ==>
      && r.googleUsers == |GoogleUsers(Join(t))| && r.credentialUsers == |CredentialUsers(Join(t))|
      && r.googleUsers <= |t.users|
      && r.credentialUsers + |r.usersWithoutAccounts| <= |t.users|
      && r.usersWithoutAccounts == UsersWithoutAccounts(Join(t))
      && (forall v :: v in r.usersWithoutAccounts <==> v in Join(t) && IsOrphan(v))
      && (WellFormed(t) ==> r.totalPasswords == |t.entries|)
  {
    if queryThrows then QueryFailed
    else if |t.users| == 0 then NoUsers
    else
      var vs := Join(t);
      DisjointFiltersFit(vs, HasPassword, IsOrphan);
      TotalPasswordsCountsEntries(t);
      Statistics(|GoogleUsers(vs)|, |CredentialUsers(vs)|, TotalPasswords(vs), UsersWithoutAccounts(vs))
  }

  // ================================================================ properties

  /** Two filters with disjoint conditions never select more elements than there are. */
  lemma {:induction false} DisjointFiltersFit(s: seq<UserView>, p: UserView -> bool, q: UserView -> bool)
    requires forall x :: !(p(x) && q(x))
    ensures |Filter(s, p)| + |Filter(s, q)| <= |s|
  {
    if s != [] {
      DisjointFiltersFit(s[1..], p, q);
    }
  }

  lemma {:induction false} FilterAppend(s: seq<UserView>, x: UserView, p: UserView -> bool)
    ensures Filter(s + [x], p) == Filter(s, p) + (if p(x) then [x] else [])
  {
    if s != [] {
      assert (s + [x])[1..] == s[1..] + [x];
      FilterAppend(s[1..], x, p);
    }
  }

  /** The password users, the Google users and the users without a sign-in method, as sets of the users. */
  lemma ClassificationExact(vs: seq<UserView>)
    ensures forall v :: v in CredentialUsers(vs) <==> v in vs && v.user.password.Some?
    ensures forall v :: v in UsersWithoutAccounts(vs) <==> v in vs && v.user.password.None? && v.accounts == []
    ensures forall v :: v in GoogleUsers(vs) <==> v in vs && exists a :: a in v.accounts && a.provider == Auth.Google
    ensures forall v :: v in CredentialUsers(vs) ==> v !in UsersWithoutAccounts(vs)
    ensures forall v :: v in GoogleUsers(vs) ==> v !in UsersWithoutAccounts(vs)
  {
  }

  /** The ids of a user table. */
  function IdSet(users: seq<User>): (ids: set<Id>)
    ensures forall id :: id in ids <==> HasUser(users, id)
  {
    if users == [] then {}
    else
      assert forall u :: u in users <==> u == users[0] || u in users[1..];
      {users[0].id} + IdSet(users[1..])
  }

  /** The number of entries owned by one of `ids`. */
  function CountOwnedBy(entries: seq<Entry>, ids: set<Id>): nat
  {
    if entries == [] then 0
    else (if entries[0].userId in ids then 1 else 0) + CountOwnedBy(entries[1..], ids)
  }

  lemma {:induction false} CountOwnedBySplit(entries: seq<Entry>, ids: set<Id>, id: Id)
    requires id !in ids
    ensures CountOwnedBy(entries, ids + {id}) == |Owned(entries, id)| + CountOwnedBy(entries, ids)
  {
    if entries != [] {
      CountOwnedBySplit(entries[1..], ids, id);
    }
  }

  lemma {:induction false} CountOwnedByNone(entries: seq<Entry>)
    ensures CountOwnedBy(entries, {}) == 0
  {
    if entries != [] {
      CountOwnedByNone(entries[1..]);
    }
  }

  lemma {:induction false} CountOwnedByAll(entries: seq<Entry>, ids: set<Id>)
    requires forall e :: e in entries ==> e.userId in ids
    ensures CountOwnedBy(entries, ids) == |entries|
  {
    if entries != [] {
      CountOwnedByAll(entries[1..], ids);
    }
  }

  lemma {:induction false} TotalPasswordsByOwner(users: seq<User>, accounts: seq<Account>, entries: seq<Entry>)
    requires UniqueUsers(users)
    ensures TotalPasswords(JoinUsers(users, accounts, entries)) == CountOwnedBy(entries, IdSet(users))
  {
    if users == [] {
      CountOwnedByNone(entries);
    } else {
      var vs := JoinUsers(users, accounts, entries);
      assert vs[1..] == JoinUsers(users[1..], accounts, entries);
      assert UniqueUsers(users[1..]) by {
        forall i, j | 0 <= i < j < |users[1..]|
          ensures users[1..][i].id != users[1..][j].id
        {
          assert users[1..][i] == users[i + 1] && users[1..][j] == users[j + 1];
        }
      }
      TotalPasswordsByOwner(users[1..], accounts, entries);
      assert vs[0] == ViewOf(users[0], accounts, entries);
      assert TotalPasswords(vs) == |Owned(entries, users[0].id)| + CountOwnedBy(entries, IdSet(users[1..]));
      assert users[0].id !in IdSet(users[1..]) by {
        forall k | 0 <= k < |users[1..]| ensures users[1..][k].id != users[0].id {
          assert users[1..][k] == users[k + 1];
        }
      }
      CountOwnedBySplit(entries, IdSet(users[1..]), users[0].id);
      assert IdSet(users) == IdSet(users[1..]) + {users[0].id};
    }
  }

  /** On a well-formed store the script's entry total is exactly the number of stored entries. */
  lemma TotalPasswordsCountsEntries(t: Tables)
    ensures WellFormed(t) ==> TotalPasswords(Join(t)) == |t.entries|
  {
    if WellFormed(t) {
      TotalPasswordsByOwner(t.users, t.accounts, t.entries);
      CountOwnedByAll(t.entries, IdSet(t.users));
    }
  }

  lemma {:induction false} NoneLinked(accounts: seq<Account>, id: Id)
    requires forall a :: a in accounts ==> a.userId != id
    ensures AccountsOf(accounts, id) == []
  {
    if accounts != [] {
      NoneLinked(accounts[1..], id);
    }
  }

  /** A user added without a password and with a fresh id joins the users without a sign-in method. */
  lemma ProvisionedUnlinkedIsOrphan(t: Tables, u: User)
    requires WellFormed(t) && u.id == t.nextId && u.password.None?
    ensures var t' := InsertUser(t, u);
      && Join(t') == Join(t) + [ViewOf(u, t.accounts, t.entries)]
      && IsOrphan(ViewOf(u, t.accounts, t.entries))
      && UsersWithoutAccounts(Join(t')) == UsersWithoutAccounts(Join(t)) + [ViewOf(u, t.accounts, t.entries)]
  {
    var t' := InsertUser(t, u);
    assert Join(t') == Join(t) + [ViewOf(u, t.accounts, t.entries)];
    forall a | a in t.accounts ensures a.userId != u.id {
      var w :| w in t.users && w.id == a.userId;
    }
    NoneLinked(t.accounts, u.id);
    FilterAppend(Join(t), ViewOf(u, t.accounts, t.entries), IsOrphan);
  }

  /**
   * The orphan state: a Google sign-in for a new email whose account insert
   * throws is refused, yet the user created just before stays stored, with no
   * password and no linked account: exactly one more user without a sign-in
   * method.
   */
  lemma FailedLinkLeavesOrphan(t: Tables, user: Auth.ProviderUser, account: Option<Auth.ProviderAccount>, now: nat)
    requires WellFormed(t)
    requires Auth.IsGoogle(account) && Truthy(user.email) && EmailFree(t.users, user.email.value)
    requires AccountKeyFree(t.accounts, Auth.Google, account.value.providerAccountId)
    ensures var o := Auth.SignInEffect(t, user, account, now, Some(AccountInsert));
            var u := Auth.ProvisionedUser(t.nextId, user, user.email.value, now);
      && !o.allowed
      && o.tables == InsertUser(t, u)
      && |UsersWithoutAccounts(Join(o.tables))| == |UsersWithoutAccounts(Join(t))| + 1
      && ViewOf(u, t.accounts, t.entries) in UsersWithoutAccounts(Join(o.tables))
  {
    var u := Auth.ProvisionedUser(t.nextId, user, user.email.value, now);
    Auth.SignInNewEmailUnlinked(t, user, account, now, Some(AccountInsert));
    ProvisionedUnlinkedIsOrphan(t, u);
  }

  /**
   * A Google identity already linked to one user, signing in with an email no
   * user has (the provider account's email changed), is allowed; a new user
   * is provisioned for the email and is left with no password and no linked
   * account.
   */
  lemma RelinkedIdentityLeavesOrphan(t: Tables, user: Auth.ProviderUser, account: Option<Auth.ProviderAccount>, now: nat)
    requires WellFormed(t)
    requires Auth.IsGoogle(account) && Truthy(user.email) && EmailFree(t.users, user.email.value)
    requires !AccountKeyFree(t.accounts, Auth.Google, account.value.providerAccountId)
    ensures var o := Auth.SignInEffect(t, user, account, now, None);
            var u := Auth.ProvisionedUser(t.nextId, user, user.email.value, now);
      && o.allowed
      && o.tables == InsertUser(t, u)
      && ViewOf(u, t.accounts, t.entries) in UsersWithoutAccounts(Join(o.tables))
  {
    var u := Auth.ProvisionedUser(t.nextId, user, user.email.value, now);
    Auth.SignInNewEmailUnlinked(t, user, account, now, None);
    ProvisionedUnlinkedIsOrphan(t, u);
  }

  /**
   * When the identity is not linked yet, a successful Google sign-in leaves
   * the resolved user with a Google account: counted among the Google users,
   * never among the users without a sign-in method.
   */
  lemma LinkedSignInIsGoogleUser(t: Tables, user: Auth.ProviderUser, account: Option<Auth.ProviderAccount>, now: nat)
    requires Auth.IsGoogle(account) && Truthy(user.email)
    requires AccountKeyFree(t.accounts, Auth.Google, account.value.providerAccountId)
    ensures var o := Auth.SignInEffect(t, user, account, now, None);
            var u := Auth.ResolvedUser(t, user, user.email.value, now);
      && o.allowed
      && (exists v :: v in GoogleUsers(Join(o.tables)) && v.user == u)
      && (forall v :: v in Join(o.tables) && v.user == u ==> v !in UsersWithoutAccounts(Join(o.tables)))
  {
    var o := Auth.SignInEffect(t, user, account, now, None);
    var email, a := user.email.value, account.value;
    var u := Auth.ResolvedUser(t, user, email, now);
    var link := Auth.LinkedAccount(u.id, a);
    Auth.SignInLinksOnlyNewIdentity(t, user, account, now);
    assert link in o.tables.accounts;
    var i :| 0 <= i < |o.tables.users| && o.tables.users[i] == u;
    var v := Join(o.tables)[i];
    assert v == ViewOf(u, o.tables.accounts, o.tables.entries);
    assert link in v.accounts;
    assert HasGoogleAccount(v);
    forall w | w in Join(o.tables) && w.user == u ensures w !in UsersWithoutAccounts(Join(o.tables)) {
      assert w == ViewOf(u, o.tables.accounts, o.tables.entries);
      assert link in w.accounts;
    }
  }
}
