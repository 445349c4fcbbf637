/** Sessions while the user service goes on committing. */
module SessionRuns {
  import opened Wrappers
  import opened CryptoFunctions
  import opened Passwords
  import opened Sessions
  import U = UserRuns

  /** Whatever is committed after a pair was handed out, and whatever happens to its user, either token
      still names a user the tables hold until it expires: a deleted account is still found. */
  lemma {:induction false} SessionsOutliveCommits(crypto: Crypto, classes: CharClasses, run: U.Run, a: nat, b: nat,
                                                  config: Config, e: Event, now: int)
    requires U.ValidRun(crypto, classes, run) && a <= b < |run.states|
    requires Sound(config) && ValidEvent(config, e) && e.tables == run.states[a]
    ensures e.user.id in run.states[b].users
    ensures UserIdFrom(config, e.tokens.token, now) == Success(e.user.id) <==> now <= e.now + config.tokenTtl
    ensures UserIdFrom(config, e.tokens.refreshToken, now) == Success(e.user.id)
            <==> now <= e.now + config.refreshTokenTtl
  {
    U.RunsStayConsistent(crypto, classes, run, b);
    assert run.states[a].users.Keys <= run.states[b].users.Keys;
    TokensResolveIff(config, e.user, e.now, e.tokens, now);
  }
}
