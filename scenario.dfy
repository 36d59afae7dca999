/**
 * Clients of the ledger that walk through one session: register, log in,
 * record a transfer, change its status and read it back. Every assertion
 * here follows from the handlers' contracts.
 */
module Scenario {
  import opened Wrappers
  import Schemas
  import Main
  import Models
  import Query

  const Salt: string := "0123456789abcdefghijkl"

  method RegisterAndLogIn()
  {
    var ledger := new Main.Ledger();
    var created := ledger.CreateUser("alice", "pw1", Salt);
    assert created == Success(Schemas.User(1, "alice"));

    var again := ledger.CreateUser("alice", "other", Salt);
    assert again == Failure(Main.DuplicateUsername);

    assert ledger.LoginUser("alice", "pw1") == Success(1);
    assert ledger.LoginUser("bob", "pw1") == Failure(Main.InvalidCredentials);
    ledger.OtherPasswordIsRejected(0, Salt, "pw1", "Vw1");
    assert ledger.LoginUser("alice", "Vw1") == Failure(Main.InvalidCredentials);
    assert ledger.GetCurrentUser(None) == Failure(Main.Unauthenticated);
    assert ledger.GetCurrentUser(Some(2)) == Failure(Main.InvalidSession);
    assert ledger.GetCurrentUser(Some(1)).Success?;
  }

  /**
   * A fresh store where "alice" is registered as user 1 and no transaction
   * exists yet, and the session cookie that her login issued.
   */
  method AliceSignedIn() returns (ledger: Main.Ledger, session: Option<int>)
    ensures fresh(ledger) && ledger.Valid()
    ensures |ledger.users| == 1 && ledger.users[0].id == 1 && ledger.users[0].username == "alice"
    ensures ledger.transactions == [] && ledger.nextTransactionId == 1
    ensures session == Some(1)
  {
    ledger := new Main.Ledger();
    var created := ledger.CreateUser("alice", "pw1", Salt);
    var login := ledger.LoginUser("alice", "pw1");
    assert login == Success(1);
    session := Some(login.value);
  }

  method RecordAndReview()
  {
    var ledger, session := AliceSignedIn();

    var payload := Schemas.NewTransactionCreate("A", "B", 100.0, None);
    var made := ledger.CreateTransaction(session, payload, 1000);
    var expected := Schemas.Transaction(1, 1000, "A", "B", 100.0, Schemas.Red);
    assert made == Success(expected);

    var update := Schemas.TransactionStatusUpdate(Schemas.Green);
    var updated := ledger.UpdateTransactionStatus(session, 1, update);
    assert updated == Success(expected.(status := Schemas.Green));
    assert ledger.ReadTransaction(session, 1) == Success(expected.(status := Schemas.Green));
    assert ledger.ReadTransaction(session, 2) == Failure(Main.NotFound);
  }

  method RecordAndList()
  {
    var ledger, session := AliceSignedIn();
    var payload := Schemas.NewTransactionCreate("A", "B", 100.0, None);
    var made := ledger.CreateTransaction(session, payload, 1000);
    var t := Models.Transaction(1, 1000, "A", "B", 100.0, Schemas.Red, 1);
    assert ledger.transactions == [t];

    var p := Query.Params(0, 10, Query.View(Query.Date, Query.Desc, None, None));
    assert ledger.ListTransactions(session, p) == Success([Main.ToSchema(t)]) by {
      OnlyRecordIsListed(t, p);
      assert Main.ToSchemas([t]) == [Main.ToSchema(t)];
    }
  }

  /** With no filter, a store holding one record of the caller lists exactly that record. */
  lemma OnlyRecordIsListed(t: Query.Tx, p: Query.Params)
    requires Query.ValidParams(p) && p.skip == 0
    requires p.view.contractor.None? && p.view.date.None?
    ensures Query.ListQuery([t], t.ownerId, p) == [t]
  {
    var all := Query.Ordered([t], t.ownerId, p.view);
    Query.OrderedIsSortedSelection([t], t.ownerId, p.view);
    assert Query.Matches(t.ownerId, p.view.contractor, p.view.date, t);
    assert multiset(all) == multiset{t};
    assert |all| == |multiset(all)| == 1;
    assert all[0] in all;
  }
}
