# PeachTreeBank ledger — a Dafny model

This project models the core of the PeachTreeBank ledger service, a small
multi-user API in which users register and log in with a session cookie,
then record, list, read and re-status transfers between named accounts.
The HTTP and database layers are replaced by an in-memory store. A
`Ledger` object holds a `users` table and a `transactions` table as
sequences, plus the next free id of each. The list endpoint's SQL query
becomes a pure pipeline: owner filter, case-insensitive `to_account`
filter, one-day `date` window, sort, then `OFFSET`/`LIMIT`.

Modules, one per source file or concern:

- `Wrappers` (wrappers.dfy) holds `Option` and `Result`.
- `Schemas` (schemas.dfy) models schemas.py. It has the three-valued `Status`, the create payload with its default status, and the public `User` and `Transaction` shapes.
- `Bcrypt` (bcrypt.dfy) stands in for passlib's bcrypt. It uses the `$2b$12$` + 22-character salt + digest layout, and the salt is a parameter. As bcrypt does, the digest reads only the first 72 characters of the password. It rotates each of those characters through the Unicode scalar values by a non-zero amount taken from the salt. So two passwords that agree on their first 72 characters share a hash, and any two that differ there are told apart.
- `Models` (models.dfy) models models.py. `User` is a class whose `hashedPassword` field `SetPassword` updates in place. `Transaction` is a record.
- `Strings` (strings.dfy) holds ASCII lower-casing, substring search and lexicographic order. These are the string semantics of `ILIKE` and of `ORDER BY to_account`.
- `Query` (query.dfy) is the list endpoint's query engine: filters, insertion sort, pages.
- `Main` (main.py, in main.dfy) holds the handlers. Lookups are functions on the `Ledger`. `create_user`, `create_transaction` and `update_transaction_status` are methods that change it. `Ledger.Valid` is the store invariant they keep: unique user ids and usernames, unique transaction ids, and every owner a stored user.
- `Scenario` (scenario.dfy) contains client methods that walk through a session: register, log in, record, update, read, list. Each step is asserted from the handlers' contracts.

Errors are a datatype, one constructor per distinct HTTP error:
`DuplicateUsername` (400), `InvalidCredentials`, `Unauthenticated` and
`InvalidSession` (401), and `NotFound` (404).

The `status` column default is `"yellow"` (models.py:31), but the API
never reaches it: the create schema defaults to `'red'` (schemas.py:24),
and `create_transaction` always passes the status explicitly
(main.py:88). The model follows that code path:
`Schemas.NewTransactionCreate` defaults to `Red`, and no model operation
defaults to `Yellow`.

## Model

| member | source | states |
|---|---|---|
| Schemas.ParseStatus | schemas.py:21 | a status literal is accepted exactly when it is `red`, `yellow` or `green`, and the accepted value spells back to the input |
| Schemas.ParseStatusName | schemas.py:33-34 | every status survives the wire round trip, so an update payload can only carry one of the three values |
| Schemas.NewTransactionCreate | schemas.py:23-24 | the payload carries its account and amount fields as given; an omitted status becomes `red`, a given one is kept |
| Bcrypt.Hash | models.py:17-18 | the stored hash has bcrypt's layout: the `$2b$12$` prefix, then the salt, then the digest |
| Bcrypt.HashVerifies | models.py:20-21 | verifying a password against its own fresh hash succeeds (hash/verify round trip) |
| Bcrypt.HashIsNotPlaintext | models.py:17-18 | the hash of a password is never the password itself |
| Bcrypt.HashInjective | models.py:17-18 | two hashes are equal only when the salts are equal and the passwords agree on their first 72 characters |
| Bcrypt.TruncationCollides | models.py:17-21 | two passwords that share their first 72 characters get the same hash under the same salt, and each verifies against the other's hash |
| Bcrypt.Verify | models.py:20-21 | a hash made from password `p` with any salt accepts exactly the candidates that agree with `p` on their first 72 characters |
| Models.User.constructor | main.py:51 | a new user row has the given id and username and no password hash yet |
| Models.User.SetPassword | models.py:17-18 | the field holds the salted hash of the password and not the plaintext, and `CheckPassword` then accepts that password |
| Models.User.CheckPassword | models.py:20-21 | when the stored hash was made from `p`, the check accepts exactly the passwords that agree with `p` on their first 72 characters |
| Strings.Lower | main.py:108 | lower-casing keeps the length and folds `A`–`Z` character by character |
| Strings.ContainsIffOccurs | main.py:108 | the recursive substring search succeeds exactly when the needle occurs at some index of the haystack |
| Strings.ContainsIgnoringCaseIffOccurs | main.py:108 | the `ILIKE '%needle%'` test holds exactly when the lower-cased needle occurs in the lower-cased `to_account` |
| Strings.LexLeTotal | main.py:115-120 | any two account names are comparable in the `to_account` order |
| Strings.LexLeTransitive | main.py:115-120 | the `to_account` order is transitive |
| Strings.LexLeAntisymmetric | main.py:115-120 | two names each at most the other are equal |
| Query.DayStart | main.py:110-112 | the start of the day lies at or before the timestamp and less than a day before it, on a day boundary |
| Query.Filter | main.py:105-113 | one `WHERE` condition keeps every record that satisfies it, as often as it is stored, and drops every other record |
| Query.LikeIsOccurrence | main.py:108 | the contractor condition holds exactly when the lower-cased needle occurs in the lower-cased `to_account` |
| Query.SelectedMatches | main.py:105-113 | the filter chain keeps exactly the caller's records that pass the contractor and day filters, with their multiplicities; an empty contractor applies no filter |
| Query.PrecedesTotal | main.py:115-118 | under either direction, any two records can be ordered on any sort column |
| Query.PrecedesTransitive | main.py:115-118 | the chosen column and direction give a transitive order |
| Query.PrependSorted | main.py:120 | a record that precedes every element of a sorted run can go in front of it |
| Query.HeadPrecedesAll | main.py:120 | what precedes the head of a sorted run precedes all of it |
| Query.InsertPermutes | main.py:120 | insertion adds exactly the one record |
| Query.InsertSorted | main.py:120 | insertion into a sorted run keeps it sorted |
| Query.SortSortsAndPermutes | main.py:115-120 | `ORDER BY` returns a permutation of its input, non-decreasing for `asc` and non-increasing for `desc` on `date`, `amount` or `to_account` (`contractor`) |
| Query.OrderedIsSortedSelection | main.py:105-120 | the full ordered result is sorted, is a permutation of exactly the matching records, and contains a record iff it is stored and matches |
| Query.Page | main.py:121 | `OFFSET skip LIMIT limit` returns at most `limit` records: none when `skip` is past the end, otherwise `min(limit, n - skip)` records equal to the source from position `skip` on |
| Query.PageSorted | main.py:121 | a page of a sorted sequence is sorted |
| Query.SpanIsProduct | main.py:121 | `n` pages of size `limit` span `n * limit` positions |
| Query.PagesAreSlice | main.py:121 | consecutive pages, each starting where the previous one ends, tile one contiguous slice with no gap and no overlap |
| Query.PagesFromStart | main.py:121 | pages from offset 0 give a prefix of the sequence, and the whole sequence once they span it |
| Query.ListQuery | main.py:98-121 | the list query returns at most `limit` records and none when `skip` is at or past the number of matches |
| Query.ListQueryMatches | main.py:105-113 | every listed record is a stored record of the caller that passes the contractor and day filters |
| Query.ListQuerySorted | main.py:115-121 | every page is ordered on the chosen column in the chosen direction |
| Query.ListPagesArePages | main.py:121 | `n` calls of the list query at offsets `skip, skip + limit, ...` return the consecutive pages of the one ordered result |
| Query.ListPagesPartition | main.py:98-121 | `n` calls at `skip = 0, limit, 2 * limit, ...` return the first `n * limit` ordered matches in order, with no gap or overlap, and all of them once `n * limit` reaches their number |
| Main.First | main.py:34 | `.first()` finds no position iff no element matches; otherwise it returns the first matching position |
| Main.ToSchema | schemas.py:26-28 | the response record carries the stored id, date, both accounts, amount and status |
| Main.ToSchemas | main.py:94 | a list response maps every stored record, in order, to its response record |
| Main.AppendKeepsTransactionsValid | main.py:88-91 | appending a record with the next id and a known owner keeps ids unique and owners known |
| Main.StatusChangeKeepsTransactionsValid | main.py:159-160 | changing one record's status keeps ids unique and owners known |
| Main.NewUserKeepsTransactionsValid | main.py:53-54 | registering a user keeps every transaction's owner a known user |
| Main.Ledger.constructor | main.py:19 | the store starts empty and valid, with both id counters at 1 |
| Main.Ledger.GetUser | main.py:33-34 | a user is found iff one has exactly that username, and the one found has it |
| Main.Ledger.GetCurrentUser | main.py:36-45 | no cookie gives `Unauthenticated`; an id that no user has gives `InvalidSession`; otherwise the result is the stored user with that id |
| Main.Ledger.CreateUser | main.py:47-56 | fails with `DuplicateUsername` iff the username is taken, changing nothing. Otherwise it appends one fresh user with the next id, the name and a salted hash, leaves earlier users as they were and returns the public view; that user can then log in with the password |
| Main.Ledger.LoginUser | main.py:58-66 | one `InvalidCredentials` error for an unknown name and for a wrong password; success iff a user with that name accepts the password, with that user's id as the token |
| Main.Ledger.LoginWithStoredPassword | main.py:59-66 | a stored user who presents their password logs in and receives their own id |
| Main.Ledger.OtherPasswordIsRejected | main.py:59-66 | a stored user's name with a password that differs within its first 72 characters from the one the hash was made from gives `InvalidCredentials`, the same error as an unknown name |
| Main.Ledger.LoginTokenResolves | main.py:40-66 | the token a successful login issues resolves back to exactly the user that a lookup of that username returns |
| Main.Ledger.CreateTransaction | main.py:82-92 | fails like the session lookup, changing nothing. Otherwise it appends exactly one record with the next id, the clock time as date, the payload's fields verbatim and the caller as owner, and returns its public view |
| Main.Ledger.ListTransactions | main.py:94-121 | fails like the session lookup; otherwise returns the public views of the caller's query page, at most `limit` of them |
| Main.Ledger.Lookup | main.py:130-139 | finds a record iff one has that id and is owned by the caller; otherwise `NotFound`, after any session failure |
| Main.Ledger.ReadTransaction | main.py:124-140 | fails as the lookup does; on success returns the public view of a caller's record with that id |
| Main.Ledger.OwnRecordIsRead | main.py:130-140 | the caller's own record is always found by its id, and reading it returns its public view |
| Main.Ledger.OthersRecordsAreHidden | main.py:130-139 | another user's record gives the same `NotFound` as a missing id, and never appears in a listing |
| Main.Ledger.UpdateTransactionStatus | main.py:142-162 | fails as the lookup does, changing nothing. Otherwise it replaces the status of exactly that record, leaving its other fields, every other record and the users as they were, and returns the updated view |
| Scenario.OnlyRecordIsListed | main.py:105-121 | with no filter, a store holding one record of the caller lists exactly that record |

## Left out

- HTTP glue is not modelled: routing, the response body and cookie attributes (main.py:63-70), logout (main.py:72-75), CORS (main.py:21-31) and the lifespan session (main.py:10-16). Errors are a datatype, and the session cookie is the `Option<int>` passed to each handler.
- Persistence is not modelled: `create_all`, `add`/`commit`/`refresh` and the ORM relationships. The `database` module is not part of this model. Tables are sequences and ids come from counters starting at 1. That matches a fresh SQLite table where no rows are deleted.
- Bcrypt.Hash: the digest is a stand-in, not bcrypt. It is injective on the first 72 characters of the password, so a hash verifies against exactly the passwords that agree with its own there (`Bcrypt.Verify`), and it is never the plaintext (`HashIsNotPlaintext`). It is not one-way, and it does not have bcrypt's fixed 60-character length or its cost factor. The random salt is a parameter.
- Bcrypt.Truncate: bcrypt cuts the password after 72 UTF-8 bytes; the model cuts after 72 characters, since strings are sequences of characters with no encoding. A password with characters outside ASCII is therefore cut later in the model than by bcrypt.
- Bcrypt.Verify: because of that cut, it tells apart some passwords with characters outside ASCII that bcrypt would accept for each other. passlib also refuses a password that contains a NUL character with `PasswordValueError`, which makes `create_user` and `login_user` fail with a server error; the model hashes and verifies such a password like any other.
- Models.User.CheckPassword: the same two gaps as `Bcrypt.Verify` (characters rather than UTF-8 bytes, no NUL error).
- Main.Ledger.OtherPasswordIsRejected: the same two gaps; with bytes, a password that differs only after its 72nd byte would log in.
- Main.Ledger.GetCurrentUser: the cookie is already an integer. The unhandled `ValueError` that `int(session_id)` raises on a non-numeric cookie (main.py:42) is not modelled.
- Strings.Lower folds only ASCII `A`–`Z`. Database collations and Unicode case folding are not modelled.
- Query.LikeIsOccurrence: `%` and `_` inside `contractor` act as `ILIKE` wildcards in the source (main.py:108). The model treats them as ordinary characters.
- `amount` is a `real`, so floating-point rounding is not modelled. `date` is a count of seconds. The day window is `[t - t % 86400, that + 86400)`, which ignores time zones. The clock is the `now` parameter of `CreateTransaction`.
- Query.SortSortsAndPermutes: ties on the sort key are broken by one fixed insertion order, and only sortedness and permutation are promised. A database may order tied records differently on each call. `Query.ListPagesPartition` therefore holds for the real service only when the sort key has no ties.
- Pydantic and `Query(...)` validation is a precondition (`Query.ValidParams`: `skip >= 0`, `1 <= limit <= 100`). The defaults `skip = 0`, `limit = 50`, `sort_by = date` and `order = asc` are not modelled. `sort_by` and `order` are datatypes, so the pattern checks of main.py:100-101 hold by construction.
- The `StatusEnum` class (main.py:77-80) is unused by any handler and is not modelled. The `"yellow"` column default (models.py:31) is unreachable through the API; see above.
- Concurrent requests and database locking are not modelled. Each handler is one atomic step.
