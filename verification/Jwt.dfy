/** Signed tokens: the claim map around an abstract signer. */
module Jwt {
  import opened Wrappers

  datatype Value = Text(text: string) | Number(number: int) | Texts(texts: seq<string>)

  type Claims = map<string, Value>

  datatype Signer = Signer(sign: Claims -> Option<string>, verify: string -> Option<Claims>)

  /** Whatever was signed verifies, and gives back what was signed. */
  ghost predicate Ideal(signer: Signer) {
    forall claims :: signer.sign(claims).Some? ==> signer.verify(signer.sign(claims).value) == Some(claims)
  }

  datatype JwtError = Sign | Parse

  /** What a token generated for these claims is. */
  function Generated(signer: Signer, claims: Claims, expiresAt: int): Result<string, JwtError> {
    match signer.sign(claims["exp" := Number(expiresAt)])
    case Some(token) => Success(token)
    case None => Failure(Sign)
  }

  /** What validating a token gives at a time: an expiry is required and has no grace period. */
  function Validated(signer: Signer, token: string, now: int): Result<Claims, JwtError> {
    match signer.verify(token)
    case None => Failure(Parse)
    case Some(claims) =>
      if "exp" in claims && claims["exp"].Number? && now <= claims["exp"].number then Success(claims - {"exp"})
      else Failure(Parse)
  }

  class HmacTokenGenerator {
    const signer: Signer

    constructor (signer: Signer)
      ensures this.signer == signer
    {
      this.signer := signer;
    }

    method GenerateToken(claims: Claims, expiresAt: int) returns (r: Result<string, JwtError>)
      ensures r == Generated(signer, claims, expiresAt)
    {
      var signed := claims;
      signed := signed["exp" := Number(expiresAt)];
      match signer.sign(signed) {
        case Some(token) => return Success(token);
        case None => return Failure(Sign);
      }
    }

    method ValidateToken(token: string, now: int) returns (r: Result<Claims, JwtError>)
      ensures r == Validated(signer, token, now)
    {
      var verified := signer.verify(token);
      if verified.None? {
        return Failure(Parse);
      }
      var claims := verified.value;
      if "exp" !in claims || !claims["exp"].Number? || claims["exp"].number < now {
        return Failure(Parse);
      }
      claims := claims - {"exp"};
      return Success(claims);
    }
  }

  /** Validating a generated token gives the claims without exp up to the second it expires, and an error
      after; an exp among the claims themselves never survives. */
  lemma {:induction false} ValidateGenerated(signer: Signer, claims: Claims, expiresAt: int, token: string, now: int)
    requires Ideal(signer) && Generated(signer, claims, expiresAt) == Success(token)
    ensures Validated(signer, token, now) == if now <= expiresAt then Success(claims - {"exp"}) else Failure(Parse)
  {
    var signed := claims["exp" := Number(expiresAt)];
    assert signer.sign(signed) == Some(token);
    assert signer.verify(signer.sign(signed).value) == Some(signed);
    assert signed - {"exp"} == claims - {"exp"};
  }
}
