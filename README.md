# Password vault: authentication and vault-entry logic

This project models the decision logic of a small password-vault web
application. The application has two sign-in designs side by side.

- The email-keyed design runs on the NextAuth framework. It has a credentials
  check (`authorize`), a Google federation callback (`signIn`) that finds or
  creates the user and links the Google account, and the `jwt` and `session`
  callbacks. Those callbacks copy the stored user's id into the session
  token and then into the session.
- The older username-keyed design has a register route, which hashes the
  password with bcrypt at cost 10 and stores the user, and a login route,
  which issues a one-hour JSON Web Token.

The vault routes list the signed-in user's entries newest first and create
entries bound to that user. A diagnostics script classifies the stored users
and counts their entries.

All of this runs against a record store with three tables:

- users, with unique email and unique username;
- accounts, with the unique key `(provider, providerAccountId)`;
- password entries.

The store is the class `Store.Database`. Its tables are sequence fields that
its create methods reassign. The code is modelled in the form it takes:

- Handlers that change the store are methods that take the database as a
  parameter and change it through its create methods: `Auth.SignIn`,
  `RegisterRoute.Register` and `PasswordsRoute.CreatePassword`. Each is proved
  equal to a function of the tables before it (`SignInEffect`,
  `RegisterEffect`, `CreateEffect`). Each such function returns the response
  together with the tables after the call, and the lemmas are proved about it.
- Handlers that only read are functions: `Authorize`, `Login`,
  `ListPasswords` and `Check`.
- The `jwt` and `session` callbacks update the token and session objects in
  place, so they are methods that modify a `Token` object and the user of a
  `Session` object.

A store call that throws is a parameter. `SignInEffect` and `RegisterEffect`
make several store calls and take `fault`, naming the call that throws;
`ListPasswords` and `CreateEffect` make one store call each and take `fault`
in the same form. `Authorize`, `Login`, `JwtCallback` and `Check` make a single
lookup or query and take a boolean `lookupThrows` or `queryThrows`. bcrypt and
JSON Web Token signing (RFC 7519) are modelled symbolically as free terms:

- a digest records its cost, its salt and the part of the secret bcrypt hashes, which is its first 72 bytes;
- a token records its claims, its key, its issue time and its expiry.

Clocks and salts are parameters.

The session lifetime is `Auth.SessionMaxAge`, 30 days in seconds
(auth.ts:17). The login token lifetime is `LoginRoute.TokenLifetime`, one
hour.

## Model

| member | source | states |
|---|---|---|
| Bcrypt.HashSync | app/api/auth/register/route.ts:31 | the digest records the requested work factor and the salt drawn for it |
| Bcrypt.CompareHash | app/api/auth/login/route.ts:26 | a secret always compares equal to its own digest, whatever the cost and salt |
| Bcrypt.SaltedHashesDiffer | app/api/auth/register/route.ts:31 | two hashings of one secret with different salts give different digests, and both verify |
| Bcrypt.Significant | app/api/auth/register/route.ts:31 | the part of a secret bcrypt hashes is the secret itself up to 72 characters, and its first 72 characters beyond that |
| Bcrypt.CompareOthers | auth.ts:64-72 | a digest accepts another secret exactly when the two agree on their first 72 characters; for secrets of at most 72 characters, exactly when they are equal |
| Bcrypt.LongSecretsCollide | app/api/auth/login/route.ts:26 | two secrets sharing their first 72 characters accept each other's digest, so a login with a different but equally prefixed password succeeds |
| JsonWebToken.Sign | app/api/auth/login/route.ts:34-38 | the token carries exactly the given claims and key, issued now and expiring `expiresIn` seconds later |
| JsonWebToken.Verify | app/api/auth/login/route.ts:34-38 | gives `expiresIn: '1h'` its library meaning (no handler here verifies tokens): the claims come back only under the signing key and only before the expiry; otherwise nothing |
| JsonWebToken.SignThenVerify | app/api/auth/login/route.ts:34-38 | a signed token yields its claims under its key up to its expiry and nothing from then on |
| Records.FindUserByEmail | auth.ts:52-56 | the user found has that email and is stored; nothing is found exactly when no stored user has that email |
| Records.FindUserByUsername | app/api/auth/register/route.ts:20-22 | the user found has that username and is stored; nothing is found exactly when the username is free |
| Records.FindAccount | auth.ts:119-126 | the account found has that provider and provider account id; nothing is found exactly when the key is free |
| Records.FindUserByEmailUnique | auth.ts:52-56 | when emails are unique, the lookup by email returns that very user |
| Records.FindUserByUsernameUnique | app/api/auth/login/route.ts:20-22 | when usernames are unique, the lookup by username returns that very user |
| Records.Owned | app/api/passwords/route.ts:20-23 | each entry occurs as often as it is stored if the owner matches, and not at all otherwise |
| Records.OwnedIgnoresOthers | app/api/passwords/route.ts:22 | appending an entry of another owner leaves an owner's entries unchanged |
| Records.InsertUserWellFormed | auth.ts:105-112 | inserting a user under the next id with a free email and username keeps every table constraint |
| Records.InsertAccountWellFormed | auth.ts:130-144 | linking a free key to a stored user keeps every table constraint |
| Records.InsertEntryWellFormed | app/api/passwords/route.ts:65-72 | adding an entry owned by a stored user keeps every table constraint |
| Records.UniqueEmailIsExactlyOne | auth.ts:99-101 | on a table with unique emails, a stored user's email belongs to exactly that one user |
| Records.UniqueKeyIsExactlyOne | auth.ts:119-126 | on a table with unique keys, a stored account's key belongs to exactly that one account |
| Store.Database.CreateUser | auth.ts:105-112 | stores the user under the next id, returns the stored record, and keeps the constraints |
| Store.Database.CreateAccount | auth.ts:130-144 | appends the account link and keeps the constraints |
| Store.Database.CreateEntry | app/api/passwords/route.ts:65-72 | the insert succeeds exactly when the owner is a stored user; it then appends the entry, and otherwise changes nothing |
| Auth.Authorize | auth.ts:45-80 | missing email or password is rejected with "请输入邮箱和密码" exactly when a field is missing, before the store is consulted; any other rejection is "邮箱或密码错误"; success returns only the public fields of a stored user with that email who accepts the password |
| Auth.AuthorizeExactly | auth.ts:45-80 | on unique emails, a given pair is accepted exactly when the stored user with that email accepts the password, and then `{id, email, name}` of that user is returned |
| Auth.AuthorizeUndifferentiated | auth.ts:59-61 | an unknown email, a user without a password and a wrong password get the identical rejection |
| Auth.LocalPart | auth.ts:108 | the result is a prefix of the email containing no '@', and is followed by '@' whenever it is shorter than the email |
| Auth.WithUser | auth.ts:99-116 | after the user step, the user the callback works with is stored |
| Auth.WithAccount | auth.ts:119-148 | after the account step, the provider key is linked |
| Auth.SignInEffect | auth.ts:88-157 | non-Google sign-in is allowed with no store change; Google without an email is refused with no store change; entries never change; at most one user and one account are appended and nothing stored is altered |
| Auth.SignIn | auth.ts:88-157 | the callback on the store allows exactly what `SignInEffect` allows, leaves exactly its tables, and keeps the constraints |
| Auth.SignInProvisionsOrReuses | auth.ts:99-116 | a stored email is reused and the user table is unchanged; for a new email exactly one user is added, with that email, the given name or else the part before '@', a verification time, no password and a fresh id no account refers to |
| Auth.SignInNewEmailUnlinked | auth.ts:103-154 | for a new email whose link already exists or whose link insert throws, the only change is the provisioned user, and sign-in is allowed only in the first case |
| Auth.SignInLinksOnlyNewIdentity | auth.ts:119-150 | with no failure, sign-in is allowed and the resolved user is stored; an account is appended, linked to the resolved user, only when the key was free |
| Auth.SignInFailuresRefuse | auth.ts:151-154 | every store failure the callback reaches makes it refuse the sign-in |
| Auth.SignInWellFormed | auth.ts:88-157 | the callback keeps every table constraint, on every path, failures included |
| Auth.SignInIdempotent | auth.ts:99-148 | a second run with the same provider data on the resulting tables allows the same sign-in and changes nothing |
| Auth.SignInLeavesExactlyOne | auth.ts:99-150 | after a successful Google sign-in exactly one user has the email and exactly one account has the key |
| Auth.Token.constructor | auth.ts:161 | a fresh session token carries the signed-in email and name and no id |
| Auth.JwtCallback | auth.ts:161-177 | when the signed-in email is stored, the token takes that user's id, email and name; otherwise the token is unchanged; a lookup failure propagates |
| Auth.SessionCallback | auth.ts:181-186 | the session's user, when there is one, takes the token's id and keeps its name and email |
| RegisterRoute.RegisterEffect | app/api/auth/register/route.ts:8-48 | 400 exactly for a missing field; 409 exactly for a taken username; 201 exactly when the insert goes through; every other outcome is 500; only a 201 changes the tables, and then it appends the user with the username and a cost-10 digest of the password |
| RegisterRoute.Register | app/api/auth/register/route.ts:8-48 | the route on the store responds as `RegisterEffect` says, leaves exactly its tables, and keeps the constraints |
| RegisterRoute.RegisterStoresOneHashedUser | app/api/auth/register/route.ts:31-42 | a successful registration adds exactly one user with the username, a fresh id, and a cost-10 digest that accepts the password, with no email, name or verification; the response is the fixed message with no password or digest |
| RegisterRoute.RegisterDuplicateConflicts | app/api/auth/register/route.ts:20-27 | a taken username with a given password gets 409 and leaves the tables exactly as they were |
| LoginRoute.SigningKey | app/api/auth/login/route.ts:36 | the key is the configured secret when one is set, and "YOUR_SECRET_KEY" otherwise |
| LoginRoute.Login | app/api/auth/login/route.ts:9-48 | 400 exactly for a missing field; every 401 is the same "用户名或密码无效" response; 200 only for a stored user with that username who accepts the password, with a token of claims `{userId, username}` under the signing key for one hour; a stored user without a digest makes the comparison throw, which is a 500 and not the 401 of an unknown username; any 500 is an unparsable body, a failed lookup or such a user; the store is only read |
| LoginRoute.LoginOutcomes | app/api/auth/login/route.ts:20-47 | on unique usernames, an unknown username and a wrong password get the identical 401; a stored user without a digest gets 500, so that case is told apart from an unknown username; the right password gets 200 with a token readable until one hour has passed and unreadable from then on |
| LoginRoute.RegisterThenLogin | app/api/auth/login/route.ts:26 | after a successful registration of a username and password, logging in with the same pair is issued a token for the registered user |
| PasswordsRoute.ActingUser | app/api/passwords/route.ts:15-17 | there is an acting user exactly when the session has a user with an id, and it is that id |
| PasswordsRoute.InsertByDate | app/api/passwords/route.ts:25-27 | inserting into a newest-first list keeps it newest first and adds exactly that entry |
| PasswordsRoute.SortNewestFirst | app/api/passwords/route.ts:25-27 | the result is ordered by creation time, newest first, and is a permutation of the input |
| PasswordsRoute.ListPasswords | app/api/passwords/route.ts:9-38 | 401 with "请先登录" exactly without an acting user; 500 exactly when the query throws; a 200 lists exactly the acting user's entries, each as often as stored, newest first |
| PasswordsRoute.CreateEffect | app/api/passwords/route.ts:45-82 | 401 exactly without an acting user; 400 exactly for a missing field; 201 exactly when the fields are given, the insert does not throw and the owner is stored; only a 201 changes the tables, and then it appends the returned entry with the given fields owned by the acting user |
| PasswordsRoute.CreatePassword | app/api/passwords/route.ts:45-82 | the route on the store responds as `CreateEffect` says, leaves exactly its tables, and keeps the constraints |
| PasswordsRoute.CreatedEntryIsolated | app/api/passwords/route.ts:22 | an entry user A creates is listed for A, is never listed for another user B, and leaves B's list exactly as it was |
| PasswordsRoute.CreateWellFormed | app/api/passwords/route.ts:45-82 | the create route keeps every table constraint |
| PasswordsRoute.CredentialsSignInActor | auth.ts:45-186 | after a credentials sign-in through `authorize`, `jwt` and `session`, the vault routes act for someone exactly when a stored user with that email accepts the password, and they act for that user |
| CheckUsers.AccountsOf | check-users.js:15-20 | the accounts included with a user are exactly the stored accounts linked to it |
| CheckUsers.JoinUsers | check-users.js:15-20 | one view per stored user, in order, each with that user's own accounts and entries |
| CheckUsers.Filter | check-users.js:67-79 | the filtered list holds exactly the elements satisfying the condition and is no longer than the input |
| CheckUsers.IdSet | check-users.js:69 | the set holds exactly the stored user ids |
| CheckUsers.Check | check-users.js:13-94 | a query failure is reported exactly when the query throws; an empty user table returns early with no statistics; otherwise the report gives the sizes of the Google-user and password-user classifications and the users-without-accounts list itself, the Google users never outnumber the users, the password users and the users without a sign-in method together never outnumber them, the latter are exactly the users with no password and no account, and on a well-formed store the entry total is the number of stored entries |
| CheckUsers.DisjointFiltersFit | check-users.js:68-79 | two filters with disjoint conditions never select more elements together than there are |
| CheckUsers.FilterAppend | check-users.js:77-79 | filtering a list with one more element at the end appends that element exactly when it qualifies |
| CheckUsers.ClassificationExact | check-users.js:67-79 | Google users are exactly those with a Google account; password users are exactly those with a password; users without accounts are exactly those with neither; the last group is disjoint from both others |
| CheckUsers.TotalPasswordsByOwner | check-users.js:69 | on unique ids, the sum of the users' entry counts is the number of entries owned by one of them |
| CheckUsers.TotalPasswordsCountsEntries | check-users.js:69 | on a well-formed store the entry total is exactly the number of stored entries |
| CheckUsers.NoneLinked | check-users.js:18 | a user no account refers to has no accounts included |
| CheckUsers.ProvisionedUnlinkedIsOrphan | check-users.js:77-79 | a user added under a fresh id without a password is appended to the users without a sign-in method |
| CheckUsers.FailedLinkLeavesOrphan | auth.ts:103-154 | a Google sign-in for a new email whose account insert throws is refused, yet its user stays stored with no password and no account: exactly one more user without a sign-in method |
| CheckUsers.RelinkedIdentityLeavesOrphan | auth.ts:103-150 | a Google identity already linked to another user, arriving with an email no user has, is allowed, and leaves the newly provisioned user with no password and no account |
| CheckUsers.LinkedSignInIsGoogleUser | auth.ts:119-150 | a successful sign-in with an unlinked identity makes the resolved user a Google user, never a user without a sign-in method |

## Left out

- The DELETE handler for one vault entry (app/api/passwords/[id]/route.ts) is not modelled. It checks neither the session nor the entry's owner: it deletes the entry with the given id for any caller and answers 204, or 500 when the delete throws.
- The user interface pages, the session provider component, the network proxy scripts, the connection caching in lib/prisma.ts, the type declarations and the repair script are left out. None of them decides anything the handlers do.
- The provider list, which enables Google only when its environment variables are set (auth.ts:30-35), is left out. So is the framework's own handling of the sign-in flow between the callbacks.
- `auth()` failing inside the vault routes is not modelled. The session is a parameter.
- Concurrency is left out. Each handler is one atomic sequential step, so two concurrent federation callbacks racing on a uniqueness constraint cannot be expressed. The store's uniqueness constraints are preconditions of its create methods, and every handler looks the key up first.
- The owner of an entry is a foreign key in the database schema, which is not part of this model. `Store.Database.CreateEntry` refuses an entry whose owner is not stored, which the route reports as 500.
- bcrypt and token signing are symbolic. The work factor is recorded but costs nothing. bcrypt hashes only the first 72 bytes of a secret; the model counts that limit in characters, which agrees with bytes for ASCII secrets but not for secrets with multi-byte characters, where bcrypt stops after fewer characters. Token signatures and encoding are not modelled.
- Record ids are opaque strings generated by the store; they are modelled as natural numbers drawn from a counter. Timestamps (`createdAt`, `emailVerified`) and the sign-in time are natural numbers passed in as parameters. `updatedAt` is not modelled.
- `PasswordsRoute.SortNewestFirst`: entries created at the same instant keep their stored order. The database gives no order among ties, so the model fixes one.
- Everything the diagnostics script prints, and its per-user listing loop, is left out; `CheckUsers.Check` returns the figures the script prints.
- Request bodies are modelled as JSON objects whose fields are strings or missing. A field that holds a truthy non-string value (a number, say) makes the hashing, the comparison or the entry insert throw, and the route answers 500. The model does not represent such values.
- Log messages (`console.log`, `console.error`) are left out everywhere.
- `Auth.SessionMaxAge` is a constant only. Session expiry is enforced by the framework and is not modelled.
- The provider's image is passed through to the provisioned user unchanged. The `profile` argument of `signIn` is unused by the code and is not modelled.
