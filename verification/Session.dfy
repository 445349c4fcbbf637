/**
 Sessions: logging in, refreshing, and resolving a token to a user. Times are whole seconds. The ghost
 field `log` of the service records every pair of tokens it hands out, with the tables and the time at
 which it did; theorems about all logs the service can produce follow the class.
 */
module Sessions {
  import opened Wrappers
  import opened CryptoFunctions
  import opened IamTables
  import opened UserTables
  import opened Jwt

  const INVALID_CREDENTIALS := "invalid username or password"
  const INVALID_REFRESH_TOKEN := "invalid or malformed refresh token"

  datatype Error = Unauthorized(message: string) | Unknown

  datatype Identity = Identity(id: Uuid, email: string, userName: string, password: string, roles: seq<string>)

  datatype Tokens = Tokens(token: string, refreshToken: string)

  datatype Config = Config(
    crypto: Crypto, signer: Signer, printId: Uuid -> string, parseId: string -> Option<Uuid>,
    tokenTtl: int, refreshTokenTtl: int)

  /** Which of the two queries of a user lookup fail. */
  datatype Faults = Faults(row: bool, roles: bool)

  /** The signer is ideal, and reading back a printed id gives the id. */
  ghost predicate Sound(config: Config) {
    Ideal(config.signer) && forall id: Uuid :: config.parseId(config.printId(id)) == Some(id)
  }

  /** The record the store holds for this id, with its role names in some order. */
  ghost predicate IsIdentity(t: Tables, user: Identity) {
    && user.id in t.users
    && t.users[user.id].email == user.email && t.users[user.id].userName == user.userName
    && t.users[user.id].password == user.password
    && multiset(user.roles) == multiset(RoleNames(t, user.id))
  }

  function AccessClaims(config: Config, user: Identity): Claims {
    map["user_id" := Text(config.printId(user.id)), "roles" := Texts(user.roles)]
  }

  function RefreshClaims(config: Config, user: Identity): Claims {
    map["user_id" := Text(config.printId(user.id))]
  }

  function GeneratedTokens(config: Config, user: Identity, now: int): Result<Tokens, Error> {
    match Generated(config.signer, AccessClaims(config, user), now + config.tokenTtl)
    case Failure(_) => Failure(Unknown)
    case Success(token) =>
      match Generated(config.signer, RefreshClaims(config, user), now + config.refreshTokenTtl)
      case Failure(_) => Failure(Unknown)
      case Success(refreshToken) => Success(Tokens(token, refreshToken))
  }

  function UserIdFrom(config: Config, token: string, now: int): Result<Uuid, Error> {
    match Validated(config.signer, token, now)
    case Failure(_) => Failure(Unauthorized(INVALID_REFRESH_TOKEN))
    case Success(claims) =>
      if "user_id" in claims && claims["user_id"].Text? && config.parseId(claims["user_id"].text).Some? then
        Success(config.parseId(claims["user_id"].text).value)
      else Failure(Unauthorized(INVALID_REFRESH_TOKEN))
  }

  /** The signer verifies the token, it carries an expiry that has not passed, and it names this user. */
  predicate Names(config: Config, token: string, now: int, id: Uuid) {
    && config.signer.verify(token).Some?
    && var claims := config.signer.verify(token).value;
    && "exp" in claims && claims["exp"].Number? && now <= claims["exp"].number
    && "user_id" in claims && claims["user_id"].Text? && config.parseId(claims["user_id"].text) == Some(id)
  }

  /** A token resolves to a user exactly if it names it; any other, and one that nobody signed or that carries
      no expiry is another, is refused. */
  lemma {:induction false} ResolvesIff(config: Config, token: string, now: int)
    ensures forall id: Uuid :: UserIdFrom(config, token, now) == Success(id) <==> Names(config, token, now, id)
    ensures UserIdFrom(config, token, now).Failure? ==>
              UserIdFrom(config, token, now) == Failure(Unauthorized("invalid or malformed refresh token"))
    ensures UserIdFrom(config, token, now).Failure? <==> forall id: Uuid :: !Names(config, token, now, id)
  {
    if UserIdFrom(config, token, now).Success? {
      assert Names(config, token, now, UserIdFrom(config, token, now).value);
    }
  }

  /** A pair is two signed tokens: one with the id, the roles and the access lifetime, one with the id and the
      refresh lifetime. There is none exactly if one of them cannot be signed. */
  lemma {:induction false} PairIsSigned(config: Config, user: Identity, now: int)
    ensures var id := Text(config.printId(user.id));
            var access := config.signer.sign(
              map["user_id" := id, "roles" := Texts(user.roles), "exp" := Number(now + config.tokenTtl)]);
            var refresh := config.signer.sign(map["user_id" := id, "exp" := Number(now + config.refreshTokenTtl)]);
            GeneratedTokens(config, user, now) ==
            if access.Some? && refresh.Some? then Success(Tokens(access.value, refresh.value)) else Failure(Unknown)
  {
    assert AccessClaims(config, user)["exp" := Number(now + config.tokenTtl)]
           == map["user_id" := Text(config.printId(user.id)), "roles" := Texts(user.roles),
                  "exp" := Number(now + config.tokenTtl)];
    assert RefreshClaims(config, user)["exp" := Number(now + config.refreshTokenTtl)]
           == map["user_id" := Text(config.printId(user.id)), "exp" := Number(now + config.refreshTokenTtl)];
  }

  /** What looking up a named user gives. */
  ghost predicate Found(t: Tables, id: Uuid, faults: Faults, r: Result<Identity, Error>) {
    if faults.row then r == Failure(Unknown)
    else if id !in t.users then r == Failure(Unauthorized("invalid or malformed refresh token"))
    else if faults.roles then r == Failure(Unknown)
    else r.Success? && r.value.id == id && IsIdentity(t, r.value)
  }

  datatype Event =
    | LoggedIn(tables: Tables, now: int, email: string, password: string, user: Identity, tokens: Tokens)
    | Refreshed(tables: Tables, now: int, presented: string, user: Identity, tokens: Tokens)

  /** A pair is handed out for the record the store holds at that moment: after the password matched, or
      for a token that resolves to that user. */
  ghost predicate ValidEvent(config: Config, e: Event) {
    && IsIdentity(e.tables, e.user) && GeneratedTokens(config, e.user, e.now) == Success(e.tokens)
    && match e
       case LoggedIn(_, _, email, password, user, _) =>
         user.email == email && config.crypto.isHash(user.password, password)
       case Refreshed(_, now, presented, user, _) => UserIdFrom(config, presented, now) == Success(user.id)
  }

  ghost predicate ValidLog(config: Config, log: seq<Event>) {
    forall i | 0 <= i < |log| :: ValidEvent(config, log[i])
  }

  class SessionService {
    const config: Config
    const jwt: HmacTokenGenerator
    var tables: Tables
    var now: int
    ghost var log: seq<Event>

    ghost predicate Valid()
      reads this
    {
      jwt.signer == config.signer && ValidLog(config, log)
    }

    constructor (config: Config, tables: Tables, now: int)
      ensures Valid() && this.config == config && this.tables == tables && this.now == now && log == []
    {
      this.config := config;
      this.jwt := new HmacTokenGenerator(config.signer);
      this.tables := tables;
      this.now := now;
      this.log := [];
    }

    // The two lookups of the store.

    method FindUserById(id: Uuid, faults: Faults) returns (r: Result<Option<Identity>, StoreError>)
      ensures if faults.row then r.Failure?
              else if id !in tables.users then r == Success(None)
              else if faults.roles then r.Failure?
              else r.Success? && r.value.Some? && r.value.value.id == id && IsIdentity(tables, r.value.value)
    {
      if faults.row {
        return Failure(StoreError.StoreError);
      } else if id !in tables.users {
        return Success(None);
      }
      r := Enrich(id, faults.roles);
    }

    method FindUserByEmail(email: string, faults: Faults) returns (r: Result<Option<Identity>, StoreError>)
      ensures if faults.row then r.Failure?
              else if forall id | id in tables.users :: tables.users[id].email != email then r == Success(None)
              else if faults.roles then r.Failure?
              else r.Success? && r.value.Some? && r.value.value.email == email && IsIdentity(tables, r.value.value)
    {
      if faults.row {
        return Failure(StoreError.StoreError);
      } else if id :| id in tables.users && tables.users[id].email == email {
        r := Enrich(id, faults.roles);
      } else {
        return Success(None);
      }
    }

    /** Adds the role names, which a second query lists in any order. */
    method Enrich(id: Uuid, fails: bool) returns (r: Result<Option<Identity>, StoreError>)
      requires id in tables.users
      ensures if fails then r.Failure?
              else r.Success? && r.value.Some? && r.value.value.id == id && IsIdentity(tables, r.value.value)
    {
      if fails {
        return Failure(StoreError.StoreError);
      }
      var names, roles := RoleNames(tables, id), [];
      ghost var all := names;
      while names != {}
        invariant names <= all && multiset(roles) == multiset(all - names)
        decreases names
      {
        var name :| name in names;
        assert all - (names - {name}) == (all - names) + {name};
        names, roles := names - {name}, roles + [name];
      }
      assert all - names == all;
      var row := tables.users[id];
      return Success(Some(Identity(id, row.email, row.userName, row.password, roles)));
    }

    method GenerateTokens(user: Identity) returns (r: Result<Tokens, Error>)
      requires jwt.signer == config.signer
      ensures r == GeneratedTokens(config, user, now)
    {
      var token := jwt.GenerateToken(AccessClaims(config, user), now + config.tokenTtl);
      if token.Failure? {
        return Failure(Unknown);
      }
      var refreshToken := jwt.GenerateToken(RefreshClaims(config, user), now + config.refreshTokenTtl);
      if refreshToken.Failure? {
        return Failure(Unknown);
      }
      return Success(Tokens(token.value, refreshToken.value));
    }

    method ReadUserId(token: string) returns (r: Result<Uuid, Error>)
      requires jwt.signer == config.signer
      ensures r == UserIdFrom(config, token, now)
    {
      var validated := jwt.ValidateToken(token, now);
      if validated.Failure? {
        return Failure(Unauthorized(INVALID_REFRESH_TOKEN));
      }
      var claims := validated.value;
      if "user_id" !in claims || !claims["user_id"].Text? {
        return Failure(Unauthorized(INVALID_REFRESH_TOKEN));
      }
      var id := config.parseId(claims["user_id"].text);
      r := if id.Some? then Success(id.value) else Failure(Unauthorized(INVALID_REFRESH_TOKEN));
    }

    /** Logging in. An address nobody has and a wrong password get the same error; without a failing query a
        right password gets the pair, if it can be signed. */
    method GenerateToken(email: string, password: string, faults: Faults) returns (r: Result<Tokens, Error>)
      requires Valid()
      modifies this`log
      ensures Valid()
      ensures if faults.row then r == Failure(Unknown) && log == old(log)
              else if forall id | id in tables.users :: tables.users[id].email != email then
                r == Failure(Unauthorized("invalid username or password")) && log == old(log)
              else if faults.roles then r == Failure(Unknown) && log == old(log)
              else
                exists user: Identity | IsIdentity(tables, user) ::
                  && user.email == email
                  && if !config.crypto.isHash(user.password, password) then
                       r == Failure(Unauthorized("invalid username or password")) && log == old(log)
                     else
                       && r == GeneratedTokens(config, user, now)
                       && log == old(log)
                          + if r.Success? then [LoggedIn(tables, now, email, password, user, r.value)] else []
    {
      var found := FindUserByEmail(email, faults);
      if found.Failure? {
        return Failure(Unknown);
      }
      if found.value.None? {
        return Failure(Unauthorized(INVALID_CREDENTIALS));
      }
      var user := found.value.value;
      if !config.crypto.isHash(user.password, password) {
        return Failure(Unauthorized(INVALID_CREDENTIALS));
      }
      r := GenerateTokens(user);
      if r.Success? {
        log := log + [LoggedIn(tables, now, email, password, user, r.value)];
      }
    }

    /** Refreshing: the new pair is for the record the store holds now of the user the token names. A token
        that names nobody is refused. */
    method RefreshToken(refreshToken: string, faults: Faults) returns (r: Result<Tokens, Error>)
      requires Valid()
      modifies this`log
      ensures Valid()
      ensures (forall id: Uuid :: !Names(config, refreshToken, now, id)) ==>
                r == Failure(Unauthorized("invalid or malformed refresh token")) && log == old(log)
      ensures forall id: Uuid | Names(config, refreshToken, now, id) ::
                exists found | Found(tables, id, faults, found) ::
                  if found.Failure? then r == Failure(found.error) && log == old(log)
                  else
                    && r == GeneratedTokens(config, found.value, now)
                    && log == old(log)
                       + if r.Success? then [Refreshed(tables, now, refreshToken, found.value, r.value)] else []
    {
      ResolvesIff(config, refreshToken, now);
      var id := ReadUserId(refreshToken);
      if id.Failure? {
        return Failure(id.error);
      }
      var user := RequireUserById(id.value, faults);
      assert Found(tables, id.value, faults, user);
      if user.Failure? {
        return Failure(user.error);
      }
      r := GenerateTokens(user.value);
      if r.Success? {
        log := log + [Refreshed(tables, now, refreshToken, user.value, r.value)];
      }
      assert Names(config, refreshToken, now, id.value);
    }

    method RequireUserById(id: Uuid, faults: Faults) returns (r: Result<Identity, Error>)
      ensures Found(tables, id, faults, r)
    {
      var found := FindUserById(id, faults);
      match found {
        case Failure(_) => return Failure(Unknown);
        case Success(None) => return Failure(Unauthorized(INVALID_REFRESH_TOKEN));
        case Success(Some(user)) => return Success(user);
      }
    }

    /** A token that names a user gives that user's current record, if there is one and no query fails; a token
        that names nobody is refused. */
    method GetIdentity(accessToken: string, faults: Faults) returns (r: Result<Identity, Error>)
      requires Valid()
      ensures (forall id: Uuid :: !Names(config, accessToken, now, id)) ==>
                r == Failure(Unauthorized("invalid or malformed refresh token"))
      ensures forall id: Uuid | Names(config, accessToken, now, id) :: Found(tables, id, faults, r)
    {
      ResolvesIff(config, accessToken, now);
      var id := ReadUserId(accessToken);
      if id.Failure? {
        return Failure(id.error);
      }
      r := RequireUserById(id.value, faults);
    }
  }

  // Theorems about every log.

  /** Either token of a pair resolves to the user it was made for, to the second of its own expiry. */
  lemma {:induction false} TokensResolveIff(config: Config, user: Identity, at: int, tokens: Tokens, now: int)
    requires Sound(config) && GeneratedTokens(config, user, at) == Success(tokens)
    ensures UserIdFrom(config, tokens.token, now)
            == if now <= at + config.tokenTtl then Success(user.id) else Failure(Unauthorized(INVALID_REFRESH_TOKEN))
    ensures UserIdFrom(config, tokens.refreshToken, now)
            == if now <= at + config.refreshTokenTtl then Success(user.id)
               else Failure(Unauthorized(INVALID_REFRESH_TOKEN))
  {
    ValidateGenerated(config.signer, AccessClaims(config, user), at + config.tokenTtl, tokens.token, now);
    ValidateGenerated(config.signer, RefreshClaims(config, user), at + config.refreshTokenTtl,
                      tokens.refreshToken, now);
    assert config.parseId(config.printId(user.id)) == Some(user.id);
  }

  predicate Issues(e: Event, token: string) {
    token == e.tokens.token || token == e.tokens.refreshToken
  }

  predicate Refreshes(log: seq<Event>, k: nat, i: nat) {
    k < i < |log| && log[i].Refreshed? && Issues(log[k], log[i].presented)
  }

  /** Each event of the chain after the first refreshed a token of the one before. */
  predicate RefreshChain(log: seq<Event>, chain: seq<nat>) {
    && (forall p | 0 <= p < |chain| :: chain[p] < |log|)
    && forall p | 0 <= p < |chain| - 1 :: Refreshes(log, chain[p], chain[p + 1])
  }

  /** Nobody but the service can sign: every token presented for a refresh is one it handed out before. */
  ghost predicate OnlyIssuedTokens(log: seq<Event>) {
    forall i: nat | i < |log| && log[i].Refreshed? :: exists k: nat :: Refreshes(log, k, i)
  }

  lemma {:induction false} IssuedNamesItsUser(config: Config, e: Event, token: string, now: int)
    requires Sound(config) && ValidEvent(config, e) && Issues(e, token)
    ensures UserIdFrom(config, token, now).Success? ==> UserIdFrom(config, token, now).value == e.user.id
  {
    TokensResolveIff(config, e.user, e.now, e.tokens, now);
  }

  /** Every pair reached by any number of refreshes is for the user of the first. */
  lemma {:induction false} RefreshingKeepsTheUser(config: Config, log: seq<Event>, chain: seq<nat>)
    requires Sound(config) && ValidLog(config, log) && RefreshChain(log, chain) && chain != []
    ensures log[chain[|chain| - 1]].user.id == log[chain[0]].user.id
  {
    if |chain| > 1 {
      var k, i := chain[|chain| - 2], chain[|chain| - 1];
      RefreshingKeepsTheUser(config, log, chain[..|chain| - 1]);
      assert Refreshes(log, k, i) && ValidEvent(config, log[i]) && ValidEvent(config, log[k]);
      IssuedNamesItsUser(config, log[k], log[i].presented, log[i].now);
    }
  }

  lemma {:induction false} BackToALogin(log: seq<Event>, i: nat) returns (chain: seq<nat>)
    requires OnlyIssuedTokens(log) && i < |log|
    ensures chain != [] && RefreshChain(log, chain) && chain[|chain| - 1] == i && log[chain[0]].LoggedIn?
    decreases i
  {
    if log[i].LoggedIn? {
      chain := [i];
    } else {
      var k: nat :| Refreshes(log, k, i);
      var earlier := BackToALogin(log, k);
      chain := earlier + [i];
      forall p | 0 <= p < |chain| - 1 ensures Refreshes(log, chain[p], chain[p + 1]) {
        assert chain[p] == earlier[p];
      }
    }
  }

  /** There is no session without a password: every pair ever handed out goes back, refresh by refresh, to a
      login of the same user with a password that matched the stored hash. */
  lemma {:induction false} SessionsGoBackToALogin(config: Config, log: seq<Event>, i: nat) returns (chain: seq<nat>)
    requires Sound(config) && ValidLog(config, log) && OnlyIssuedTokens(log) && i < |log|
    ensures chain != [] && RefreshChain(log, chain) && chain[|chain| - 1] == i && log[chain[0]].LoggedIn?
    ensures var login := log[chain[0]];
            login.user.id == log[i].user.id && config.crypto.isHash(login.user.password, login.password)
  {
    chain := BackToALogin(log, i);
    RefreshingKeepsTheUser(config, log, chain);
    assert ValidEvent(config, log[chain[0]]);
  }

  /** What a pair says of its user is what the tables said when it was made, not at the login: the access
      token carries exactly the role names of that moment, and the refresh token none. */
  lemma {:induction false} TokenCarriesCurrentRoles(config: Config, log: seq<Event>, i: nat, now: int)
    requires Sound(config) && ValidLog(config, log) && i < |log| && now <= log[i].now + config.tokenTtl
    ensures exists names ::
              && Validated(config.signer, log[i].tokens.token, now)
                 == Success(map["user_id" := Text(config.printId(log[i].user.id)), "roles" := Texts(names)])
              && multiset(names) == multiset(RoleNames(log[i].tables, log[i].user.id))
    ensures now <= log[i].now + config.refreshTokenTtl ==>
              Validated(config.signer, log[i].tokens.refreshToken, now)
              == Success(map["user_id" := Text(config.printId(log[i].user.id))])
  {
    var e := log[i];
    ValidateGenerated(config.signer, RefreshClaims(config, e.user), e.now + config.refreshTokenTtl,
                      e.tokens.refreshToken, now);
    assert RefreshClaims(config, e.user) - {"exp"} == RefreshClaims(config, e.user);
    assert ValidEvent(config, e);
    ValidateGenerated(config.signer, AccessClaims(config, e.user), e.now + config.tokenTtl, e.tokens.token, now);
    assert AccessClaims(config, e.user) - {"exp"} == AccessClaims(config, e.user);
    var names := e.user.roles;
    assert multiset(names) == multiset(RoleNames(e.tables, e.user.id));
  }

  /** A session that is left alone ends: a token the service handed out stops resolving to a user once the
      longer of the two lifetimes has passed since the last pair made for that user. */
  lemma {:induction false} SessionsEnd(config: Config, log: seq<Event>, id: Uuid, token: string, now: int)
    requires Sound(config) && ValidLog(config, log)
    requires exists k: nat | k < |log| :: Issues(log[k], token)
    requires forall i: nat | i < |log| && log[i].user.id == id ::
               log[i].now + config.tokenTtl < now && log[i].now + config.refreshTokenTtl < now
    ensures UserIdFrom(config, token, now) != Success(id)
  {
    var k: nat :| k < |log| && Issues(log[k], token);
    assert ValidEvent(config, log[k]);
    TokensResolveIff(config, log[k].user, log[k].now, log[k].tokens, now);
  }
}
