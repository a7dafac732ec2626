/**
 * The record store the handlers share (the process-wide database client). Its
 * tables are fields that the create calls reassign in place; each create keeps
 * the store's constraints and says exactly what the tables are afterwards.
 */
module Store {

  import opened Wrappers
  import opened Records
  import Bcrypt

  class Database {
    var users: seq<User>
    var accounts: seq<Account>
    var entries: seq<Entry>
    var nextId: Id

    /** The tables as a value, for the specification functions of the handlers. */
    function Snapshot(): Tables
      reads this
    {
      Tables(users, accounts, entries, nextId)
    }

    predicate Valid()
      reads this
    {
      WellFormed(Snapshot())
    }

    constructor ()
      ensures Valid() && Snapshot() == Tables([], [], [], 0)
    {
      users, accounts, entries, nextId := [], [], [], 0;
    }

    /**
     * `user.create`: stores the user under the next id and returns the stored
     * record. The email and username uniqueness constraints are the callers'
     * to meet: every handler looks the key up first.
     */
    method CreateUser(email: Option<string>, username: Option<string>, password: Option<Bcrypt.Digest>,
                      name: Option<string>, emailVerified: Option<nat>, image: Option<string>)
      returns (u: User)
      requires Valid()
      requires email.Some? ==> EmailFree(users, email.value)
      requires username.Some? ==> UsernameFree(users, username.value)
      modifies this
      ensures Valid()
      ensures u == User(old(nextId), email, username, password, name, emailVerified, image)
      ensures Snapshot() == InsertUser(old(Snapshot()), u)
    {
      u := User(nextId, email, username, password, name, emailVerified, image);
      InsertUserWellFormed(Snapshot(), u);
      users, nextId := users + [u], nextId + 1;
    }

    /** `account.create` for a key that is not yet linked, owned by a stored user. */
    method CreateAccount(a: Account)
      requires Valid()
      requires AccountKeyFree(accounts, a.provider, a.providerAccountId)
      requires HasUser(users, a.userId)
      modifies this
      ensures Valid()
      ensures Snapshot() == InsertAccount(old(Snapshot()), a)
    {
      InsertAccountWellFormed(Snapshot(), a);
      accounts := accounts + [a];
    }

    /**
     * `passwordEntry.create`. The entry's owner is a foreign key: when no
     * stored user has `userId` the store refuses the insert (`ok` is false)
     * and nothing changes.
     */
    method CreateEntry(userId: Id, website: string, username: string, password: string, createdAt: nat)
      returns (ok: bool, e: Entry)
      requires Valid()
      modifies this
      ensures Valid()
      ensures ok <==> HasUser(old(users), userId)
      ensures e == Entry(old(nextId), userId, website, username, password, createdAt)
      ensures Snapshot() == if ok then InsertEntry(old(Snapshot()), e) else old(Snapshot())
    {
      e := Entry(nextId, userId, website, username, password, createdAt);
      ok := exists u :: u in users && u.id == userId;
      if ok {
        InsertEntryWellFormed(Snapshot(), e);
        entries, nextId := entries + [e], nextId + 1;
      }
    }
  }
}
