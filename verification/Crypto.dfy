/** The functions of the crypto package, left abstract. */
module CryptoFunctions {

  /** The token digest, and "this is one of the hashes bcrypt can produce for that password". */
  datatype Crypto = Crypto(digest: string -> string, isHash: (string, string) -> bool)

  ghost predicate InjectiveDigest(crypto: Crypto) {
    forall s, t :: crypto.digest(s) == crypto.digest(t) ==> s == t
  }
}
