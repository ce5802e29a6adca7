/** Salted password hashing as `User.set_password` and `User.check_password`
    use it. The hash primitive itself belongs to a library; this module gives
    it a concrete stand-in whose only property the rest of the model relies
    on is `CheckHash`: a stored hash accepts exactly the password it was
    made from. */
module Passwords {

  /** What the `password_hash` column holds: the salt travels with the digest,
      and there is no field for the plaintext. */
  datatype PasswordHash = PasswordHash(salt: nat, digest: seq<int>)

  /** Stand-in digest: one number per character, shifted by the salt. */
  function Digest(salt: nat, password: string): (d: seq<int>)
    ensures |d| == |password|
  {
    if password == [] then [] else [password[0] as int + salt] + Digest(salt, password[1..])
  }

  /** `generate_password_hash(password)`; the random salt is a parameter. */
  function Hash(salt: nat, password: string): PasswordHash
  {
    PasswordHash(salt, Digest(salt, password))
  }

  /** `check_password_hash(stored, candidate)`: re-digest with the stored salt. */
  function Check(stored: PasswordHash, candidate: string): bool
  {
    stored.digest == Digest(stored.salt, candidate)
  }

  /** Under one salt, different passwords give different digests. */
  lemma {:induction false} DigestInjective(salt: nat, p: string, q: string)
    requires Digest(salt, p) == Digest(salt, q)
    ensures p == q
  {
    if p != [] {
      assert Digest(salt, p)[0] == p[0] as int + salt;
      assert Digest(salt, p)[1..] == Digest(salt, p[1..]);
      assert Digest(salt, q)[1..] == Digest(salt, q[1..]);
      DigestInjective(salt, p[1..], q[1..]);
      assert p == [p[0]] + p[1..];
      assert q == [q[0]] + q[1..];
    }
  }

  /** A hash made from `p` accepts `q` exactly when `q` is `p`, whatever the salt. */
  lemma CheckHash(salt: nat, p: string, q: string)
    ensures Check(Hash(salt, p), q) <==> p == q
  {
    if Check(Hash(salt, p), q) {
      DigestInjective(salt, p, q);
    }
  }
}
