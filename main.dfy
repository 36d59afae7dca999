/**
 * The request handlers (main.py) over an in-memory store: a `users` table
 * and a `transactions` table held as sequences, with the next free id of
 * each. Every transaction handler first resolves the session cookie to the
 * current user, and every transaction it touches is owned by that user.
 */
module Main {
  import opened Wrappers
  import Schemas
  import Models
  import Bcrypt
  import Query

  /** The failures the handlers raise, one per distinct HTTP error. */
  datatype Error =
    | DuplicateUsername    // 400 "Username already registered"
    | InvalidCredentials   // 401 "Incorrect username or password"
    | Unauthenticated      // 401 "Authentication required"
    | InvalidSession       // 401 "Invalid session"
    | NotFound             // 404 "Transaction not found"

  /** `.first()` of a filtered query: the position of the first element satisfying `p`. */
  function First<T>(s: seq<T>, p: T -> bool): (r: Option<nat>)
    ensures r.None? <==> forall i :: 0 <= i < |s| ==> !p(s[i])
    ensures r.Some? ==> r.value < |s| && p(s[r.value])
    ensures r.Some? ==> forall j :: 0 <= j < r.value ==> !p(s[j])
  {
    if s == [] then None
    else if p(s[0]) then Some(0)
    else
      match First(s[1..], p)
      case None => None
      case Some(i) => Some(i + 1)
  }

  /** The `response_model` view of a stored transaction: every field but the owner. */
  function ToSchema(t: Models.Transaction): (r: Schemas.Transaction)
    ensures r.id == t.id && r.date == t.date && r.status == t.status
    ensures r.fromAccount == t.fromAccount && r.toAccount == t.toAccount && r.amount == t.amount
  {
    Schemas.Transaction(t.id, t.date, t.fromAccount, t.toAccount, t.amount, t.status)
  }

  function ToSchemas(s: seq<Models.Transaction>): (r: seq<Schemas.Transaction>)
    ensures |r| == |s| && forall i :: 0 <= i < |s| ==> r[i] == ToSchema(s[i])
  {
    seq(|s|, i requires 0 <= i < |s| => ToSchema(s[i]))
  }

  /** Some user in `users` has this id. */
  ghost predicate HasUser(users: seq<Models.User>, id: int)
  {
    exists i :: 0 <= i < |users| && users[i].id == id
  }

  /**
   * The transactions table's invariant: ids are below the next free id and
   * pairwise distinct, and every owner is a user of `users`.
   */
  ghost predicate TransactionsValid(ts: seq<Models.Transaction>, nextId: int, users: seq<Models.User>)
  {
    && (forall k :: 0 <= k < |ts| ==> 1 <= ts[k].id < nextId && HasUser(users, ts[k].ownerId))
    && (forall k, l :: 0 <= k < l < |ts| ==> ts[k].id != ts[l].id)
  }

  /** Appending a record with the next free id and a known owner keeps the table valid. */
  lemma AppendKeepsTransactionsValid(ts: seq<Models.Transaction>, t: Models.Transaction, nextId: int, users: seq<Models.User>)
    requires TransactionsValid(ts, nextId, users)
    requires 1 <= nextId == t.id && HasUser(users, t.ownerId)
    ensures TransactionsValid(ts + [t], nextId + 1, users)
  {
    forall k | 0 <= k < |ts + [t]|
      ensures HasUser(users, (ts + [t])[k].ownerId)
    {
      if k < |ts| {
        assert (ts + [t])[k] == ts[k];
      }
    }
  }

  /** Changing one record's status keeps the table valid. */
  lemma StatusChangeKeepsTransactionsValid(ts: seq<Models.Transaction>, k: nat, status: Schemas.Status, nextId: int, users: seq<Models.User>)
    requires TransactionsValid(ts, nextId, users) && k < |ts|
    ensures TransactionsValid(ts[k := ts[k].(status := status)], nextId, users)
  {
  }

  /** Registering a user keeps every owner known. */
  lemma NewUserKeepsTransactionsValid(ts: seq<Models.Transaction>, nextId: int, users: seq<Models.User>, u: Models.User)
    requires TransactionsValid(ts, nextId, users)
    ensures TransactionsValid(ts, nextId, users + [u])
  {
    forall k | 0 <= k < |ts|
      ensures HasUser(users + [u], ts[k].ownerId)
    {
      var i :| 0 <= i < |users| && users[i].id == ts[k].ownerId;
      assert (users + [u])[i] == users[i];
    }
  }

  class Ledger {
    var users: seq<Models.User>
    var transactions: seq<Models.Transaction>
    /** The id the next registered user receives. */
    var nextUserId: int
    /** The id the next created transaction receives. */
    var nextTransactionId: int

    /**
     * The store's invariant: every stored user has a password hash, user
     * ids and usernames are unique, transaction ids are unique, and every
     * transaction's owner is a stored user.
     */
    ghost predicate Valid()
      reads this, users
    {
      && 1 <= nextUserId && 1 <= nextTransactionId
      && (forall i :: 0 <= i < |users| ==> users[i].hashedPassword.Some? && 1 <= users[i].id < nextUserId)
      && (forall i, j :: 0 <= i < j < |users| ==> users[i].id != users[j].id && users[i].username != users[j].username)
      && TransactionsValid(transactions, nextTransactionId, users)
    }

    /** An empty store. */
    constructor ()
      ensures Valid()
      ensures users == [] && transactions == []
      ensures nextUserId == 1 && nextTransactionId == 1
    {
      users, transactions := [], [];
      nextUserId, nextTransactionId := 1, 1;
    }

    /** `get_user`: the user with exactly this username, if any. */
    function GetUser(username: string): (r: Option<Models.User>)
      reads this
      ensures r.Some? <==> exists i :: 0 <= i < |users| && users[i].username == username
      ensures r.Some? ==> r.value in users && r.value.username == username
    {
      match First(users, (u: Models.User) => u.username == username)
      case None => None
      case Some(i) => Some(users[i])
    }

    /**
     * `get_current_user`: resolve the session cookie. A missing cookie and
     * a cookie naming no user are two distinct failures.
     */
    function GetCurrentUser(session: Option<int>): (r: Result<Models.User, Error>)
      reads this
      ensures session.None? ==> r == Failure(Unauthenticated)
      ensures session.Some? ==> (r.Success? <==> exists i :: 0 <= i < |users| && users[i].id == session.value)
      ensures session.Some? && r.Failure? ==> r.error == InvalidSession
      ensures r.Success? ==> r.value in users && r.value.id == session.value
    {
      match session
      case None => Failure(Unauthenticated)
      case Some(id) =>
        match First(users, (u: Models.User) => u.id == id)
        case None => Failure(InvalidSession)
        case Some(i) => Success(users[i])
    }

    /**
     * `create_user`: refuse a taken username; otherwise add one user with
     * the next id and a salted hash of the password, leaving every
     * existing user as it was. The new user can log in with that password.
     */
    method CreateUser(username: string, password: string, salt: string) returns (r: Result<Schemas.User, Error>)
      requires Valid()
      requires |salt| == Bcrypt.SaltLength
      modifies this
      ensures Valid()
      ensures transactions == old(transactions) && nextTransactionId == old(nextTransactionId)
      ensures r.Failure? <==> old(GetUser(username)).Some?
      ensures r.Failure? ==> r.error == DuplicateUsername && users == old(users) && nextUserId == old(nextUserId)
      ensures r.Success? ==>
        && |users| == |old(users)| + 1
        && users[..|old(users)|] == old(users)
        && fresh(users[|old(users)|])
        && users[|old(users)|].id == old(nextUserId)
        && users[|old(users)|].username == username
        && users[|old(users)|].hashedPassword == Some(Bcrypt.Hash(salt, password))
        && nextUserId == old(nextUserId) + 1
        && r.value == Schemas.User(old(nextUserId), username)
        && LoginUser(username, password) == Success(old(nextUserId))
    {
      if GetUser(username).Some? {
        return Failure(DuplicateUsername);
      }
      var user := new Models.User(nextUserId, username);
      user.SetPassword(password, salt);
      ghost var before := users;
      users := users + [user];
      nextUserId := nextUserId + 1;
      r := Success(Schemas.User(user.id, user.username));
      NewUserKeepsTransactionsValid(transactions, nextTransactionId, before, user);
      assert users[|before|] == user;
      assert Valid();
      LoginWithStoredPassword(|before|, password);
    }

    /**
     * `login_user`: succeed with the session token `str(user.id)` when the
     * username exists and the password checks; fail with one and the same
     * error whether the username is absent or the password is wrong.
     */
    function LoginUser(username: string, password: string): (r: Result<int, Error>)
      reads this, users
      requires Valid()
      ensures r.Failure? ==> r.error == InvalidCredentials
      ensures r.Success? <==>
        exists i :: 0 <= i < |users| && users[i].username == username && users[i].CheckPassword(password)
      ensures r.Success? ==> exists i :: 0 <= i < |users| && users[i].username == username && users[i].id == r.value
    {
      match GetUser(username)
      case None => Failure(InvalidCredentials)
      case Some(user) => if user.CheckPassword(password) then Success(user.id) else Failure(InvalidCredentials)
    }

    /** A stored user who presents their own password logs in and gets their id as token. */
    lemma LoginWithStoredPassword(i: nat, password: string)
      requires Valid()
      requires i < |users| && users[i].CheckPassword(password)
      ensures LoginUser(users[i].username, password) == Success(users[i].id)
    {
      var u := GetUser(users[i].username).value;
      var j :| 0 <= j < |users| && users[j] == u;
      assert users[j].username == users[i].username;
    }

    /**
     * A stored user whose hash was made from `password` cannot log in with
     * a password that differs from it within the first 72 characters; the
     * error is the same as for an unknown username.
     */
    lemma OtherPasswordIsRejected(i: nat, salt: string, password: string, other: string)
      requires Valid()
      requires i < |users| && |salt| == Bcrypt.SaltLength
      requires users[i].hashedPassword == Some(Bcrypt.Hash(salt, password))
      requires Bcrypt.Truncate(other) != Bcrypt.Truncate(password)
      ensures LoginUser(users[i].username, other) == Failure(InvalidCredentials)
    {
      var u := GetUser(users[i].username).value;
      var j :| 0 <= j < |users| && users[j] == u;
      assert users[j].username == users[i].username;
    }

    /** The token a successful login issues resolves back to the very user who logged in. */
    lemma LoginTokenResolves(username: string, password: string)
      requires Valid()
      requires LoginUser(username, password).Success?
      ensures GetUser(username).Some?
      ensures GetCurrentUser(Some(LoginUser(username, password).value)) == Success(GetUser(username).value)
    {
      var token := LoginUser(username, password).value;
      var i :| 0 <= i < |users| && users[i].username == username && users[i].id == token;
      assert GetUser(username).value == users[i];
      assert GetCurrentUser(Some(token)).value == users[i];
    }

    /**
     * `create_transaction`: for the current user, append one record with
     * the next id, the clock's `now` as its date, the payload's fields as
     * given and the caller as owner.
     */
    method CreateTransaction(session: Option<int>, payload: Schemas.TransactionCreate, now: int)
      returns (r: Result<Schemas.Transaction, Error>)
      requires Valid()
      modifies this
      ensures Valid()
      ensures users == old(users) && nextUserId == old(nextUserId)
      ensures old(GetCurrentUser(session)).Failure? ==>
        && r == Failure(old(GetCurrentUser(session)).error)
        && transactions == old(transactions) && nextTransactionId == old(nextTransactionId)
      ensures old(GetCurrentUser(session)).Success? ==>
        var t := Models.Transaction(old(nextTransactionId), now, payload.fromAccount, payload.toAccount,
                                    payload.amount, payload.status, old(GetCurrentUser(session)).value.id);
        && transactions == old(transactions) + [t]
        && nextTransactionId == old(nextTransactionId) + 1
        && r == Success(ToSchema(t))
    {
      var current := GetCurrentUser(session);
      if current.Failure? {
        return Failure(current.error);
      }
      var t := Models.Transaction(nextTransactionId, now, payload.fromAccount, payload.toAccount,
                                  payload.amount, payload.status, current.value.id);
      assert HasUser(users, t.ownerId) by {
        var i :| 0 <= i < |users| && users[i] == current.value;
      }
      AppendKeepsTransactionsValid(transactions, t, nextTransactionId, users);
      transactions := transactions + [t];
      nextTransactionId := nextTransactionId + 1;
      r := Success(ToSchema(t));
    }

    /**
     * `list_transactions`: for the current user, the page of their records
     * that the list query selects, in its order, as response records.
     */
    function ListTransactions(session: Option<int>, p: Query.Params): (r: Result<seq<Schemas.Transaction>, Error>)
      reads this
      requires Query.ValidParams(p)
      ensures r.Failure? <==> GetCurrentUser(session).Failure?
      ensures r.Failure? ==> r.error == GetCurrentUser(session).error
      ensures r.Success? ==> |r.value| <= p.limit
      ensures r.Success? ==>
        var owner := GetCurrentUser(session).value.id;
        r.value == ToSchemas(Query.ListQuery(transactions, owner, p))
    {
      match GetCurrentUser(session)
      case Failure(e) => Failure(e)
      case Success(user) => Success(ToSchemas(Query.ListQuery(transactions, user.id, p)))
    }

    /**
     * The lookup shared by `read_transaction` and `update_transaction_status`:
     * the record with this id AND owned by the current user. A record of
     * another user gives the same `NotFound` as a missing one.
     */
    function Lookup(session: Option<int>, id: int): (r: Result<nat, Error>)
      reads this
      ensures GetCurrentUser(session).Failure? ==> r == Failure(GetCurrentUser(session).error)
      ensures GetCurrentUser(session).Success? ==>
        var owner := GetCurrentUser(session).value.id;
        && (r.Success? <==> exists k :: 0 <= k < |transactions| && transactions[k].id == id && transactions[k].ownerId == owner)
        && (r.Failure? ==> r.error == NotFound)
        && (r.Success? ==> r.value < |transactions| && transactions[r.value].id == id && transactions[r.value].ownerId == owner)
    {
      match GetCurrentUser(session)
      case Failure(e) => Failure(e)
      case Success(user) =>
        match First(transactions, (t: Models.Transaction) => t.id == id && t.ownerId == user.id)
        case None => Failure(NotFound)
        case Some(k) => Success(k)
    }

    /** `read_transaction`: the current user's record with this id. */
    function ReadTransaction(session: Option<int>, id: int): (r: Result<Schemas.Transaction, Error>)
      reads this
      ensures r.Failure? <==> Lookup(session, id).Failure?
      ensures r.Failure? ==> r.error == Lookup(session, id).error
      ensures r.Success? ==>
        exists k :: && 0 <= k < |transactions| && transactions[k].id == id
                    && transactions[k].ownerId == GetCurrentUser(session).value.id
                    && r.value == ToSchema(transactions[k])
    {
      match Lookup(session, id)
      case Failure(e) => Failure(e)
      case Success(k) => Success(ToSchema(transactions[k]))
    }

    /** The caller's own record is found by its id: ids are unique, so the lookup lands on it. */
    lemma OwnRecordIsRead(session: Option<int>, k: nat)
      requires Valid()
      requires k < |transactions|
      requires GetCurrentUser(session).Success?
      requires transactions[k].ownerId == GetCurrentUser(session).value.id
      ensures Lookup(session, transactions[k].id) == Success(k)
      ensures ReadTransaction(session, transactions[k].id) == Success(ToSchema(transactions[k]))
    {
      var j := Lookup(session, transactions[k].id).value;
      assert transactions[j].id == transactions[k].id;
    }

    /**
     * Owner isolation: another user's record is never read or listed; the
     * lookup answers exactly as for an id that does not exist.
     */
    lemma OthersRecordsAreHidden(session: Option<int>, k: nat, p: Query.Params)
      requires Valid()
      requires k < |transactions|
      requires GetCurrentUser(session).Success?
      requires transactions[k].ownerId != GetCurrentUser(session).value.id
      requires Query.ValidParams(p)
      ensures Lookup(session, transactions[k].id) == Failure(NotFound)
      ensures ReadTransaction(session, transactions[k].id) == Failure(NotFound)
      ensures transactions[k] !in Query.ListQuery(transactions, GetCurrentUser(session).value.id, p)
    {
      Query.ListQueryMatches(transactions, GetCurrentUser(session).value.id, p);
    }

    /**
     * `update_transaction_status`: on the current user's record with this
     * id, replace the status and nothing else; every other record, and the
     * record's date and owner, stay as they were.
     */
    method UpdateTransactionStatus(session: Option<int>, id: int, payload: Schemas.TransactionStatusUpdate)
      returns (r: Result<Schemas.Transaction, Error>)
      requires Valid()
      modifies this
      ensures Valid()
      ensures users == old(users) && nextUserId == old(nextUserId) && nextTransactionId == old(nextTransactionId)
      ensures r.Failure? <==> old(Lookup(session, id)).Failure?
      ensures r.Failure? ==> r.error == old(Lookup(session, id)).error && transactions == old(transactions)
      ensures r.Success? ==>
        var k := old(Lookup(session, id)).value;
        && transactions == old(transactions)[k := old(transactions)[k].(status := payload.status)]
        && r.value == ToSchema(transactions[k])
    {
      var found := Lookup(session, id);
      if found.Failure? {
        return Failure(found.error);
      }
      var k := found.value;
      StatusChangeKeepsTransactionsValid(transactions, k, payload.status, nextTransactionId, users);
      transactions := transactions[k := transactions[k].(status := payload.status)];
      r := Success(ToSchema(transactions[k]));
    }
  }
}
