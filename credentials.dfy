/** Password hashing as the forum server uses it: a salted, cost-factored hash
    computed at registration and a verify function used at login. The real
    key-derivation function is a foreign call; here it is an injective stand-in
    so that "verify succeeds exactly for the registered password" can be stated. */
module Credentials {

  /** Cost factor the server passes to the hash function at registration. */
  const Rounds: nat := 10

  /** What the users table stores in place of the password: cost, salt and digest. */
  datatype PasswordHash = PasswordHash(rounds: nat, salt: nat, digest: seq<int>)

  /** Stand-in for the key derivation: one digest entry per character, shifted by the salt. */
  function Derive(password: string, salt: nat): (d: seq<int>)
    ensures |d| == |password|
    ensures forall i :: 0 <= i < |password| ==> d[i] == password[i] as int + salt
  {
    seq(|password|, i requires 0 <= i < |password| => password[i] as int + salt)
  }

  /** Hashing with a caller-supplied salt (the random salt is a parameter). */
  function Hash(password: string, salt: nat): (h: PasswordHash)
    ensures h.rounds == Rounds && h.salt == salt
    ensures Verify(password, h)
  {
    PasswordHash(Rounds, salt, Derive(password, salt))
  }

  /** Re-derives the digest of an attempt with the stored salt and compares. */
  predicate Verify(attempt: string, h: PasswordHash)
  {
    Derive(attempt, h.salt) == h.digest
  }

  /** A stored hash accepts the password it was made from and no other. */
  lemma VerifyExact(attempt: string, password: string, salt: nat)
    ensures Verify(attempt, Hash(password, salt)) <==> attempt == password
  {
  }
}
