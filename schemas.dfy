/**
 * The request and response shapes of the ledger API (schemas.py):
 * the closed status enumeration, the create payload with its default
 * status, and the public views of users and transactions.
 */
module Schemas {
  import opened Wrappers

  /** The review status of a transaction: `Literal['red', 'yellow', 'green']`. */
  datatype Status = Red | Yellow | Green

  /** The wire spelling of a status. */
  function StatusName(s: Status): string
  {
    match s
    case Red => "red"
    case Yellow => "yellow"
    case Green => "green"
  }

  /**
   * Validation of a status literal in a payload: only the three spellings
   * are accepted, so no other status can ever reach the store.
   */
  function ParseStatus(name: string): (r: Option<Status>)
    ensures r.Some? <==> name == "red" || name == "yellow" || name == "green"
    ensures r.Some? ==> StatusName(r.value) == name
  {
    if name == "red" then Some(Red)
    else if name == "yellow" then Some(Yellow)
    else if name == "green" then Some(Green)
    else None
  }

  lemma ParseStatusName(s: Status)
    ensures ParseStatus(StatusName(s)) == Some(s)
  {
  }

  /** The public user shape: an id and a username, never a password or a hash. */
  datatype User = User(id: int, username: string)

  /** The body of a create-transaction request. */
  datatype TransactionCreate = TransactionCreate(fromAccount: string, toAccount: string, amount: real, status: Status)

  /** The status the create payload takes when the client omits it. */
  const DefaultCreateStatus: Status := Red

  /** Builds a create payload; an omitted status becomes `red`. */
  function NewTransactionCreate(fromAccount: string, toAccount: string, amount: real, status: Option<Status>): (r: TransactionCreate)
    ensures r.fromAccount == fromAccount && r.toAccount == toAccount && r.amount == amount
    ensures status.None? ==> r.status == Red
    ensures status.Some? ==> r.status == status.value
  {
    TransactionCreate(fromAccount, toAccount, amount, if status.Some? then status.value else DefaultCreateStatus)
  }

  /** The body of a status-update request. */
  datatype TransactionStatusUpdate = TransactionStatusUpdate(status: Status)

  /** The public transaction shape returned by every transaction endpoint (no owner id). */
  datatype Transaction = Transaction(id: int, date: int, fromAccount: string, toAccount: string, amount: real, status: Status)
}
