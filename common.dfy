/** Types shared by every handler: optional values, record ids, HTTP answers,
    request-field presence and the password-digest abstraction. */
module Common {

  datatype Option<+T> = None | Some(value: T)

  datatype Result<+T, +E> = Ok(value: T) | Err(error: E)

  /** A MongoDB ObjectId, read as the 96-bit number it encodes. */
  type Id = nat

  /** An HTTP answer: the status code and the `message` field of its JSON body. */
  datatype Response = Response(status: nat, message: string)

  /** The message most handlers' `catch` blocks answer with, together with 500. */
  const ServerErrorMessage := "Server Error"

  /** A string field of a request body (or of a document) is present when
      JavaScript treats it as truthy: defined and not empty. Mongoose's
      `required` validator on a String path accepts exactly the same values,
      so this one predicate models both the handlers' `!field` tests and the
      schemas' save-time `required` constraints. */
  predicate Present(f: Option<string>)
  {
    f.Some? && f.value != ""
  }

  /** bcrypt reads at most this many bytes of a password; later ones are ignored. */
  const BcryptMaxLength := 72

  /** The part of a password bcrypt reads. The model counts characters, which
      are bytes for ASCII passwords. */
  function Significant(plain: string): (p: string)
    ensures |p| <= BcryptMaxLength && p <= plain
    ensures |plain| <= BcryptMaxLength ==> p == plain
  {
    if |plain| <= BcryptMaxLength then plain else plain[..BcryptMaxLength]
  }

  /** A bcrypt digest: an opaque stand-in for the salted hash string. bcrypt's
      salt and cost are abstracted away. A digest is a value of its own type,
      never a plaintext string, so a record whose password field holds a
      `Digest` cannot hold the plaintext there; the model never reads the
      digest's contents except through `Matches`. */
  datatype Digest = Digest(fingerprint: string)

  /** bcrypt.hash(password, 10) */
  function Hash(plain: string): Digest
  {
    Digest(Significant(plain))
  }

  /** bcrypt.compare(plain, digest) */
  predicate Matches(plain: string, d: Digest)
  {
    d == Hash(plain)
  }

  /** A password matches the digest made from it, and another password matches
      that digest exactly when the two agree on the part bcrypt reads. */
  lemma MatchesExactly(plain: string, other: string)
    ensures Matches(plain, Hash(plain))
    ensures Matches(other, Hash(plain)) <==> Significant(other) == Significant(plain)
    ensures |plain| <= BcryptMaxLength && |other| <= BcryptMaxLength ==> (Matches(other, Hash(plain)) <==> other == plain)
  {
  }

  /** Two passwords that share their first 72 characters match each other's
      digests, whatever follows. */
  lemma TruncatedPasswordsMatch(prefix: string, tail1: string, tail2: string)
    requires |prefix| == BcryptMaxLength
    ensures Matches(prefix + tail1, Hash(prefix + tail2))
  {
    assert (prefix + tail1)[..BcryptMaxLength] == prefix;
    assert (prefix + tail2)[..BcryptMaxLength] == prefix;
  }
}
