/**
 * A stand-in for passlib's bcrypt: `Hash` lays a password out in bcrypt's
 * textual format (`$2b$12$`, a 22-character salt, then a digest), and
 * `Verify` re-derives the digest with the salt read back from the stored
 * string. As bcrypt does, the digest reads only the first 72 characters of
 * the password, so two passwords that agree on them share their hashes.
 * The digest itself is not bcrypt's: it rotates each of those characters
 * through the Unicode scalar values by a non-zero amount taken from the
 * salt, in reverse order. That tells apart any two passwords whose first 72
 * characters differ, and keeps a hash from ever equalling its plaintext.
 */
module Bcrypt {

  /** Algorithm identifier and cost, as bcrypt writes them. */
  const Prefix: string := "$2b$12$"

  /** Length of the salt that bcrypt embeds after the prefix. */
  const SaltLength: nat := 22

  /** bcrypt's key length: everything after the 72nd character is ignored. */
  const MaxPasswordLength: nat := 72

  /** The number of Unicode scalar values: all code points but the 0x800 surrogates. */
  const Scalars: nat := 0x10F800

  /** The part of a password that the digest reads. */
  function Truncate(password: string): (t: string)
    ensures |t| == if |password| <= MaxPasswordLength then |password| else MaxPasswordLength
    ensures t == password[..|t|]
  {
    if |password| <= MaxPasswordLength then password else password[..MaxPasswordLength]
  }

  /** The position of a character among the scalar values, skipping the surrogates. */
  function Index(c: char): (i: nat)
    ensures i < Scalars
  {
    if c as int < 0xD800 then c as int else c as int - 0x800
  }

  function FromIndex(i: nat): (c: char)
    requires i < Scalars
    ensures Index(c) == i
  {
    if i < 0xD800 then i as char else (i + 0x800) as char
  }

  /** One digest character: the password character rotated by 1 to `Scalars - 1` places. */
  function Scramble(salt: string, c: char): char
  {
    var k := 1 + if salt == [] then 0 else Index(salt[0]) % (Scalars - 1);
    var x := Index(c) + k;
    FromIndex(if x < Scalars then x else x - Scalars)
  }

  /** Different characters scramble differently under the same salt. */
  lemma ScrambleInjective(salt: string, c: char, d: char)
    requires Scramble(salt, c) == Scramble(salt, d)
    ensures c == d
  {
    assert Index(c) == Index(d);
    assert c as int == d as int;
  }

  /** No character scrambles to itself. */
  lemma ScrambleMoves(salt: string, c: char)
    ensures Scramble(salt, c) != c
  {
    assert Index(Scramble(salt, c)) != Index(c);
  }

  /** The scrambled characters of `t` from last to first, then a terminator. */
  function Digest(salt: string, t: string): (d: string)
    ensures |d| == |t| + 1
    ensures forall j :: 0 <= j < |t| ==> d[j] == Scramble(salt, t[|t| - 1 - j])
  {
    seq(|t|, j requires 0 <= j < |t| => Scramble(salt, t[|t| - 1 - j])) + "."
  }

  /** Under one salt, the digest determines the text it was made from. */
  lemma DigestInjective(salt: string, t: string, u: string)
    requires Digest(salt, t) == Digest(salt, u)
    ensures t == u
  {
    var d := Digest(salt, t);
    assert |t| == |u|;
    forall i | 0 <= i < |t|
      ensures t[i] == u[i]
    {
      assert d[|t| - 1 - i] == Scramble(salt, t[i]) == Scramble(salt, u[i]);
      ScrambleInjective(salt, t[i], u[i]);
    }
  }

  /** `bcrypt.hash(password)` with its random salt passed in. */
  function Hash(salt: string, password: string): (h: string)
    requires |salt| == SaltLength
    ensures |h| == |Prefix| + SaltLength + |Truncate(password)| + 1
    ensures h[..|Prefix|] == Prefix
    ensures h[|Prefix|..|Prefix| + SaltLength] == salt
  {
    Prefix + salt + Digest(salt, Truncate(password))
  }

  /** Equal hashes come from equal salts and passwords that agree on their first 72 characters. */
  lemma HashInjective()
    ensures forall s1, p1, s2, p2 :: |s1| == SaltLength && |s2| == SaltLength && Hash(s1, p1) == Hash(s2, p2) ==>
      s1 == s2 && Truncate(p1) == Truncate(p2)
  {
    forall s1, p1, s2, p2 | |s1| == SaltLength && |s2| == SaltLength && Hash(s1, p1) == Hash(s2, p2)
      ensures s1 == s2 && Truncate(p1) == Truncate(p2)
    {
      HashSplits(s1, p1);
      HashSplits(s2, p2);
      DigestInjective(s1, Truncate(p1), Truncate(p2));
    }
  }

  lemma HashSplits(salt: string, password: string)
    requires |salt| == SaltLength
    ensures Hash(salt, password)[|Prefix| + SaltLength..] == Digest(salt, Truncate(password))
  {
  }

  /** Two passwords that agree on their first 72 characters get the same hash, so each verifies against the other's. */
  lemma TruncationCollides(salt: string, p: string, q: string)
    requires |salt| == SaltLength
    requires |p| >= MaxPasswordLength && |q| >= MaxPasswordLength
    requires p[..MaxPasswordLength] == q[..MaxPasswordLength]
    ensures Hash(salt, p) == Hash(salt, q)
    ensures Verify(q, Hash(salt, p))
  {
  }

  /**
   * `bcrypt.verify(password, h)`: re-hash with the salt stored in `h`. A
   * hash made from `p` accepts exactly the passwords that agree with `p` on
   * their first 72 characters.
   */
  function Verify(password: string, h: string): (ok: bool)
    ensures forall salt, p :: |salt| == SaltLength && h == Hash(salt, p) ==>
      (ok <==> Truncate(password) == Truncate(p))
  {
    HashInjective();
    && |h| >= |Prefix| + SaltLength
    && h[..|Prefix|] == Prefix
    && h == Hash(h[|Prefix|..|Prefix| + SaltLength], password)
  }

  /** A freshly computed hash verifies against the password it came from. */
  lemma HashVerifies(salt: string, password: string)
    requires |salt| == SaltLength
    ensures Verify(password, Hash(salt, password))
  {
  }

  /**
   * The stored hash is never the plaintext password. Only a 102-character
   * password has a hash of its own length; there the reversed digest would
   * have to fix the password's 51st character, which no rotation does.
   */
  lemma HashIsNotPlaintext(salt: string, password: string)
    requires |salt| == SaltLength
    ensures Hash(salt, password) != password
  {
    var h, t := Hash(salt, password), Truncate(password);
    if h == password {
      assert |t| == MaxPasswordLength;
      assert h[50] == Digest(salt, t)[21] == Scramble(salt, t[50]);
      assert t[50] == password[50];
      ScrambleMoves(salt, password[50]);
    }
  }
}
