/**
 * The vault entry routes: listing the signed-in user's entries newest first,
 * and creating an entry bound to the signed-in user. Both are gated on the
 * session carrying a user id.
 */
module PasswordsRoute {

  import opened Wrappers
  import opened Records
  import opened Http
  import Auth
  import Store

  const Unauthenticated := "请先登录"
  const ListFailed := "无法获取密码列表"
  const MissingEntryFields := "网站、用户名和密码不能为空"
  const CreateFailed := "无法新增密码"

  /** The gate `!session || !session.user?.id`: the acting user's id, when there is one. */
  function ActingUser(session: Option<Auth.SessionData>): (r: Option<Id>)
    ensures r.Some? <==> session.Some? && session.value.user.Some? && session.value.user.value.id.Some?
    ensures r.Some? ==> session.value.user.value.id == r
  {
    if session.Some? && session.value.user.Some? then session.value.user.value.id else None
  }

  /** A session whose user has id `owner`. */
  function SessionOf(owner: Id): Auth.SessionData
  {
    Auth.SessionData(Some(Auth.SessionUserData(Some(owner), None, None)))
  }

  // ================================================================ GET

  /** `orderBy: { createdAt: 'desc' }`. */
  predicate NewestFirst(es: seq<Entry>)
  {
    forall i, j :: 0 <= i < j < |es| ==> es[i].createdAt >= es[j].createdAt
  }

  /** Nothing in `es` is newer than `date`. */
  predicate NoNewerThan(es: seq<Entry>, date: nat)
  {
    forall x :: x in es ==> x.createdAt <= date
  }

  lemma HeadIsNewest(es: seq<Entry>)
    requires NewestFirst(es) && es != []
    ensures NoNewerThan(es, es[0].createdAt)
  {
    forall x | x in es ensures x.createdAt <= es[0].createdAt {
      var k :| 0 <= k < |es| && es[k] == x;
      if k > 0 {
        assert es[0].createdAt >= es[k].createdAt;
      }
    }
  }

  lemma ConsNewestFirst(x: Entry, es: seq<Entry>)
    requires NewestFirst(es) && NoNewerThan(es, x.createdAt)
    ensures NewestFirst([x] + es)
  {
    var r := [x] + es;
    forall i, j | 0 <= i < j < |r| ensures r[i].createdAt >= r[j].createdAt {
      if i == 0 {
        assert r[j] in es;
      } else {
        assert r[i] == es[i - 1] && r[j] == es[j - 1];
      }
    }
  }

  lemma PrependNewest(x: Entry, es: seq<Entry>)
    requires NewestFirst(es) && (es == [] || x.createdAt >= es[0].createdAt)
    ensures NewestFirst([x] + es)
  {
    if es != [] {
      HeadIsNewest(es);
    }
    ConsNewestFirst(x, es);
  }

  /** Inserts `e` into a newest-first list, ahead of the entries no newer than it. */
  function InsertByDate(e: Entry, es: seq<Entry>): (r: seq<Entry>)
    requires NewestFirst(es)
    ensures NewestFirst(r)
    ensures multiset(r) == multiset(es) + multiset{e}
  {
    if es == [] || e.createdAt >= es[0].createdAt then
      PrependNewest(e, es);
      [e] + es
    else
      assert es == [es[0]] + es[1..];
      var rest := InsertByDate(e, es[1..]);
      HeadIsNewest(es);
      assert NoNewerThan(rest, es[0].createdAt) by {
        forall x | x in rest ensures x.createdAt <= es[0].createdAt {
          assert x in multiset(rest);
          assert x == e || x in multiset(es[1..]);
          if x != e {
            assert x in es;
          }
        }
      }
      ConsNewestFirst(es[0], rest);
      [es[0]] + rest
  }

  /** Sorts newest first; among entries created at the same time the stored order is kept. */
  function SortNewestFirst(es: seq<Entry>): (r: seq<Entry>)
    ensures NewestFirst(r)
    ensures multiset(r) == multiset(es)
  {
    if es == [] then []
    else
      assert es == [es[0]] + es[1..];
      InsertByDate(es[0], SortNewestFirst(es[1..]))
  }

  /**
   * `GET /api/passwords`: 401 without an acting user; otherwise exactly the
   * acting user's entries, newest first, or 500 when the query throws.
   */
  function ListPasswords(session: Option<Auth.SessionData>, entries: seq<Entry>, fault: Option<StoreCall>): (r: Response)
    ensures r.status == 401 <==> ActingUser(session).None?
    ensures r.status == 401 ==> r.body == Error(Unauthenticated)
    ensures r.status == 500 <==> ActingUser(session).Some? && Throws(fault, EntryQuery)
    ensures r.status in {200, 401, 500}
    ensures r.status == 200 ==>
      && r.body.EntryList?
      && NewestFirst(r.body.entries)
      && forall e :: multiset(r.body.entries)[e] ==
                     if e.userId == ActingUser(session).value then multiset(entries)[e] else 0
  {
    if ActingUser(session).None? then Response(401, Error(Unauthenticated))
    else if Throws(fault, EntryQuery) then Response(500, Error(ListFailed))
    else Response(200, EntryList(SortNewestFirst(Owned(entries, ActingUser(session).value))))
  }

  // ================================================================ POST

  /** The body of a create request; `Unparsable` when `request.json()` throws. */
  datatype EntryRequest =
    | Unparsable
    | EntryFields(website: Option<string>, username: Option<string>, password: Option<string>)

  predicate EntryFieldsGiven(request: EntryRequest)
  {
    request.EntryFields? && Truthy(request.website) && Truthy(request.username) && Truthy(request.password)
  }

  /**
   * `POST /api/passwords` as a function of the tables before it. The entry is
   * bound to the acting user; the store refuses it (500) when that user is
   * not stored, as the entry's owner is a foreign key. `now` is the creation
   * time the store stamps.
   */
  function CreateEffect(t: Tables, session: Option<Auth.SessionData>, request: EntryRequest, now: nat,
                        fault: Option<StoreCall>): (o: RouteOutcome)
    ensures o.response.status in {201, 400, 401, 500}
    ensures o.response.status == 401 <==> ActingUser(session).None?
    ensures o.response.status == 400 <==> ActingUser(session).Some? && request.EntryFields? && !EntryFieldsGiven(request)
    ensures o.response.status == 201 <==>
      ActingUser(session).Some? && EntryFieldsGiven(request) && !Throws(fault, EntryInsert)
      && HasUser(t.users, ActingUser(session).value)
    ensures o.response.status != 201 ==> o.tables == t
    ensures o.response.status == 201 ==>
      var e := Entry(t.nextId, ActingUser(session).value, request.website.value, request.username.value,
                     request.password.value, now);
      o.response.body == EntryCreated(e) && o.tables == InsertEntry(t, e)
  {
    var owner := ActingUser(session);
    if owner.None? then RouteOutcome(Response(401, Error(Unauthenticated)), t)
    else if request.Unparsable? then RouteOutcome(Response(500, Error(CreateFailed)), t)
    else if !EntryFieldsGiven(request) then RouteOutcome(Response(400, Error(MissingEntryFields)), t)
    else if Throws(fault, EntryInsert) || !HasUser(t.users, owner.value) then
      RouteOutcome(Response(500, Error(CreateFailed)), t)
    else
      var e := Entry(t.nextId, owner.value, request.website.value, request.username.value, request.password.value, now);
      RouteOutcome(Response(201, EntryCreated(e)), InsertEntry(t, e))
  }

  /** The route run against the store. */
  method CreatePassword(db: Store.Database, session: Option<Auth.SessionData>, request: EntryRequest, now: nat,
                        fault: Option<StoreCall>)
    returns (response: Response)
    requires db.Valid()
    modifies db
    ensures db.Valid()
    ensures RouteOutcome(response, db.Snapshot()) == CreateEffect(old(db.Snapshot()), session, request, now, fault)
  {
    var owner := ActingUser(session);
    if owner.None? {
      return Response(401, Error(Unauthenticated));
    }
    if request.Unparsable? {
      return Response(500, Error(CreateFailed));
    }
    if !Truthy(request.website) || !Truthy(request.username) || !Truthy(request.password) {
      return Response(400, Error(MissingEntryFields));
    }
    if Throws(fault, EntryInsert) {
      return Response(500, Error(CreateFailed));
    }
    var ok, e := db.CreateEntry(owner.value, request.website.value, request.username.value, request.password.value, now);
    if !ok {
      return Response(500, Error(CreateFailed));
    }
    return Response(201, EntryCreated(e));
  }

  // ================================================================ properties

  /**
   * Ownership isolation: an entry user A creates is listed for A, is never
   * listed for any other user B, and leaves B's list exactly as it was.
   */
  lemma CreatedEntryIsolated(t: Tables, a: Id, b: Id, request: EntryRequest, now: nat)
    requires a != b
    requires CreateEffect(t, Some(SessionOf(a)), request, now, None).response.status == 201
    ensures var o := CreateEffect(t, Some(SessionOf(a)), request, now, None);
            var e := o.response.body.entry;
      && e.userId == a
      && e in ListPasswords(Some(SessionOf(a)), o.tables.entries, None).body.entries
      && e !in ListPasswords(Some(SessionOf(b)), o.tables.entries, None).body.entries
      && ListPasswords(Some(SessionOf(b)), o.tables.entries, None) == ListPasswords(Some(SessionOf(b)), t.entries, None)
  {
    var o := CreateEffect(t, Some(SessionOf(a)), request, now, None);
    var e := o.response.body.entry;
    OwnedIgnoresOthers(t.entries, e, b);
    var listed := ListPasswords(Some(SessionOf(a)), o.tables.entries, None).body.entries;
    assert multiset(o.tables.entries)[e] > 0;
    assert multiset(listed)[e] > 0;
    var other := ListPasswords(Some(SessionOf(b)), o.tables.entries, None).body.entries;
    assert multiset(other)[e] == 0;
  }

  /** The create route keeps the store's constraints. */
  lemma CreateWellFormed(t: Tables, session: Option<Auth.SessionData>, request: EntryRequest, now: nat,
                         fault: Option<StoreCall>)
    requires WellFormed(t)
    ensures WellFormed(CreateEffect(t, session, request, now, fault).tables)
  {
    var o := CreateEffect(t, session, request, now, fault);
    if o.response.status == 201 {
      InsertEntryWellFormed(t, o.response.body.entry);
    }
  }

  /**
   * The acting user the vault routes see after a credentials sign-in:
   * `authorize` accepts the pair, the `jwt` callback copies the stored user's
   * id into a fresh token, the `session` callback copies it into the session,
   * and the gate reads it back. A user is acting exactly when the store holds
   * a user with that email who accepts the password, and it is that user.
   */
  method CredentialsSignInActor(db: Store.Database, email: string, password: string) returns (actor: Option<Id>)
    requires db.Valid()
    ensures actor.Some? <==>
      email != "" && password != "" && exists u :: u in db.users && u.email == Some(email) && PasswordMatches(u, password)
    ensures actor.Some? ==> exists u :: u in db.users && u.email == Some(email) && u.id == actor.value
  {
    var r := Auth.Authorize(db.users, Some(Auth.Credentials(Some(email), Some(password))), false);
    if email != "" && password != "" {
      Auth.AuthorizeExactly(db.users, email, password);
    }
    if !r.Authorized? {
      return None;
    }
    var token := new Auth.Token(r.user.email, r.user.name);
    var _ := Auth.JwtCallback(token, r.user.email, db, false);
    var user := new Auth.SessionUser(token.name, token.email);
    var session := new Auth.Session(user);
    Auth.SessionCallback(session, token);
    actor := ActingUser(Some(session.Data()));
  }
}
