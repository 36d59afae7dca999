/**
 * The persisted records (models.py): a user, whose password hash is set in
 * place, and a transaction with its owner reference.
 */
module Models {
  import opened Wrappers
  import Schemas
  import Bcrypt

  /** A row of the `users` table. The id and the username never change. */
  class User {
    const id: int
    const username: string
    /** `None` until `SetPassword` runs; every stored user has one. */
    var hashedPassword: Option<string>

    constructor (id: int, username: string)
      ensures this.id == id && this.username == username
      ensures hashedPassword == None
    {
      this.id := id;
      this.username := username;
      hashedPassword := None;
    }

    /** `set_password`: store the salted hash, never the plaintext. */
    method SetPassword(password: string, salt: string)
      requires |salt| == Bcrypt.SaltLength
      modifies this
      ensures hashedPassword == Some(Bcrypt.Hash(salt, password))
      ensures hashedPassword != Some(password)
      ensures CheckPassword(password)
    {
      hashedPassword := Some(Bcrypt.Hash(salt, password));
      Bcrypt.HashIsNotPlaintext(salt, password);
      Bcrypt.HashVerifies(salt, password);
    }

    /**
     * `check_password`: a read-only test of a candidate password. When the
     * stored hash was made from `p`, it accepts exactly the passwords that
     * agree with `p` on their first 72 characters.
     */
    function CheckPassword(password: string): (ok: bool)
      reads this
      requires hashedPassword.Some?
      ensures forall salt, p :: |salt| == Bcrypt.SaltLength && hashedPassword.value == Bcrypt.Hash(salt, p) ==>
        (ok <==> Bcrypt.Truncate(password) == Bcrypt.Truncate(p))
    {
      Bcrypt.Verify(password, hashedPassword.value)
    }
  }

  /**
   * A row of the `transactions` table. `date` is a timestamp in seconds,
   * `ownerId` the id of the user who created it.
   */
  datatype Transaction = Transaction(
    id: int,
    date: int,
    fromAccount: string,
    toAccount: string,
    amount: real,
    status: Schemas.Status,
    ownerId: int)
}
