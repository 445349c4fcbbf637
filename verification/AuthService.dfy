/**
 The two reset operations of AuthService as the code runs them: one statement after another against
 tables that are updated in place. The ghost field `run` records every step taken; the object keeps it
 a valid sequential run of the protocol, so every theorem about such runs holds of the object's tables.

 What happens around a call is an argument: which store calls fail, what the mailer, the hash function and
 the random source answer, and how much time passes between the statements. Every outcome follows from it.
 */
module AuthServices {
  import opened Wrappers
  import opened CryptoFunctions
  import opened Keys
  import opened ResetProtocol
  import opened ResetSafety

  datatype Error = NotFound | BadRequest | Unknown

  datatype Mail = Mail(recipient: string, userName: string, callbackUri: string)

  /** What a recovery meets: the failures of its statements, the token that is drawn, the time it takes. */
  datatype RecoveryWorld = RecoveryWorld(
    findFails: bool, clearFails: bool, storeFails: bool, mailFails: bool, token: string,
    beforeClear: nat, beforeStore: nat, beforeMail: nat)

  /** What a reset meets; the hash function answers None if it fails. */
  datatype ResetWorld = ResetWorld(
    findFails: bool, hash: Option<string>, writeFails: bool, clearFails: bool,
    beforeCheck: nat, beforeWrite: nat, beforeClear: nat)

  /** What a recovery that has cleared its address leaves: the insert at time `at` and the mail, as far as they
      get. */
  predicate Issues(crypto: Crypto, world: RecoveryWorld, cleared: map<nat, PasswordReset>, email: string, at: int,
                   mail: Mail, r: Result<(), Error>, rowId: nat, resets: map<nat, PasswordReset>,
                   outbox: seq<Mail>, outbox': seq<Mail>)
  {
    if world.storeFails then r == Failure(Unknown) && resets == cleared && outbox' == outbox
    else
      && rowId !in cleared
      && resets == cleared[rowId := PasswordReset(email, crypto.digest(world.token), at)]
      && r == (if world.mailFails then Failure(Unknown) else Success(()))
      && outbox' == if world.mailFails then outbox else outbox + [mail]
  }

  class AuthService {
    const crypto: Crypto
    var users: map<Uuid, Identity>
    var resets: map<nat, PasswordReset>
    var now: int
    var outbox: seq<Mail>
    ghost var run: Run

    /** The recorded run ends in the object's own tables. */
    ghost predicate Recorded()
      reads this
    {
      && ValidRun(crypto, run) && Sequential(run)
      && Last(run).users == users && Last(run).resets == resets && Last(run).now == now
    }

    ghost predicate Idle()
      reads this
      requires |run.states| > 0
    {
      forall c | c in Last(run).calls :: !Last(run).calls[c].InProgress()
    }

    ghost predicate Valid()
      reads this
    {
      Recorded() && Idle()
    }

    /** The recorded history is only ever added to, and the clock does not go back. */
    twostate predicate Continues()
      reads this
    {
      old(run.states) <= run.states && old(run.events) <= run.events && old(now) <= now
    }

    /** This call is the only one in progress, and it stands here. */
    ghost predicate At(c: CallId, call: Call)
      reads this
    {
      && Recorded() && c in Last(run).calls && Last(run).calls[c] == call
      && forall d | d in Last(run).calls && d != c :: !Last(run).calls[d].InProgress()
    }

    constructor (crypto: Crypto, users: map<Uuid, Identity>, now: int)
      ensures Valid() && this.crypto == crypto && this.users == users && resets == map[] && outbox == []
    {
      this.crypto := crypto;
      this.users := users;
      this.resets := map[];
      this.now := now;
      this.outbox := [];
      this.run := Run([State(users, map[], map[], now)], []);
    }

    /** Appends a step to the recorded run. */
    ghost method Record(event: Event)
      requires ValidRun(crypto, run) && Sequential(run) && Enabled(crypto, Last(run), event)
      requires OneInProgress(Next(crypto, Last(run), event))
      modifies this`run
      ensures ValidRun(crypto, run) && Sequential(run) && Last(run) == Next(crypto, old(Last(run)), event)
      ensures Continues()
    {
      ExtendIsValid(crypto, run, event);
      run := Extend(crypto, run, event);
    }

    /** Appends a step of the one call in progress, c. */
    ghost method Move(c: CallId, action: Action)
      requires ValidRun(crypto, run) && Sequential(run) && Enabled(crypto, Last(run), Step(c, action))
      requires forall d | d in Last(run).calls && d != c :: !Last(run).calls[d].InProgress()
      modifies this`run
      ensures ValidRun(crypto, run) && Sequential(run) && Last(run) == Next(crypto, old(Last(run)), Step(c, action))
      ensures forall d | d in Last(run).calls && d != c :: !Last(run).calls[d].InProgress()
      ensures c in Last(run).calls && Last(run).calls[c] == Advance(crypto, old(Last(run)), c, action)
      ensures Continues()
    {
      Record(Step(c, action));
    }

    /** A call begins. */
    ghost method Begin(action: Action) returns (c: CallId)
      requires Valid() && (action.StartRecovery? || action.StartReset?)
      modifies this`run
      ensures At(c, if action.StartRecovery? then RecoveryStarted(action.email)
                    else ResetStarted(action.token, action.newPassword)) && Continues()
    {
      c := FreshKey(Last(run).calls);
      Move(c, action);
    }

    /** Time passes. */
    method Elapse(elapsed: nat, ghost c: CallId, ghost call: Call)
      requires At(c, call)
      modifies this`now, this`run
      ensures At(c, call) && Continues() && now == old(now) + elapsed
    {
      assert OneInProgress(Last(run));
      Record(Tick(elapsed));
      now := now + elapsed;
    }

    // The statements of the store, each with the step it takes in the protocol.

    method FindUserByEmail(email: string, fails: bool, ghost c: CallId)
      returns (r: Result<Option<Identity>, StoreError>, ghost userId: Uuid)
      requires At(c, RecoveryStarted(email))
      modifies this`run
      ensures Continues() && (r.Failure? <==> fails)
      ensures match r
              case Success(Some(user)) =>
                && user.email == email && userId in users && users[userId] == user
                && At(c, RecoveryFound(email, user))
              case Success(None) => Valid() && forall id | id in users :: users[id].email != email
              case Failure(_) => Valid()
    {
      userId := 0;
      if fails {
        Move(c, Stop);
        return Failure(StoreError), userId;
      }
      if id :| id in users && users[id].email == email {
        r, userId := Success(Some(users[id])), id;
        Move(c, FindUser(id));
      } else {
        r := Success(None);
        Move(c, FindNoUser);
      }
    }

    method FindPasswordByToken(token: string, fails: bool, ghost c: CallId, ghost rawToken: string,
                               ghost newPassword: string)
      returns (r: Result<Option<PasswordReset>, StoreError>, ghost rowId: nat)
      requires At(c, ResetStarted(rawToken, newPassword)) && token == crypto.digest(rawToken)
      modifies this`run
      ensures Continues() && (r.Failure? <==> fails)
      ensures match r
              case Success(Some(row)) =>
                && row.token == token && rowId in resets && resets[rowId] == row
                && At(c, ResetFound(rawToken, newPassword, row))
              case Success(None) => Valid() && forall i | i in resets :: resets[i].token != token
              case Failure(_) => Valid()
    {
      rowId := 0;
      if fails {
        Move(c, Stop);
        return Failure(StoreError), rowId;
      }
      if i :| i in resets && resets[i].token == token {
        r, rowId := Success(Some(resets[i])), i;
        Move(c, FindReset(i));
      } else {
        r := Success(None);
        Move(c, FindNoReset);
      }
    }

    /** DELETE FROM iam.password_resets: the second step of a recovery and the last of a reset. */
    method DeletePasswordResets(email: string, fails: bool, ghost c: CallId, ghost call: Call) returns (ok: bool)
      requires At(c, call)
      requires (call.RecoveryFound? && call.email == email) || (call.ResetWritten? && call.row.email == email)
      modifies this`resets, this`run
      ensures Continues() && ok == !fails
      ensures resets == if ok then DeletePasswordReset(old(resets), email) else old(resets)
      ensures if !ok || call.ResetWritten? then Valid() else At(c, RecoveryCleared(email, call.user))
    {
      ok := !fails;
      if ok {
        resets := map i | i in resets && resets[i].email != email :: resets[i];
        Move(c, if call.ResetWritten? then ConsumeResets else ClearResets);
      } else {
        Move(c, Stop);
      }
    }

    method CreatePasswordReset(email: string, token: string, fails: bool, ghost c: CallId, ghost user: Identity,
                               ghost rawToken: string)
      returns (ok: bool, rowId: nat)
      requires At(c, RecoveryCleared(email, user)) && token == crypto.digest(rawToken)
      modifies this`resets, this`run
      ensures Continues() && rowId !in old(resets) && ok == !fails
      ensures resets == if ok then old(resets)[rowId := PasswordReset(email, token, now)] else old(resets)
      ensures if ok then At(c, RecoveryStored(email, user, rawToken)) else Valid()
    {
      ghost var unused := FreshKey(resets);
      rowId :| rowId !in resets;
      ok := !fails;
      if ok {
        resets := resets[rowId := PasswordReset(email, token, now)];
        Move(c, StoreReset(rawToken, rowId));
      } else {
        Move(c, Stop);
      }
    }

    method StorePassword(email: string, hash: string, fails: bool, ghost c: CallId, ghost call: Call)
      returns (ok: bool)
      requires At(c, call) && call.ResetChecked? && call.row.email == email && crypto.isHash(hash, call.newPassword)
      modifies this`users, this`run
      ensures Continues() && ok == !fails
      ensures users == if ok then UpdatePassword(old(users), email, hash) else old(users)
      ensures if ok then At(c, ResetWritten(call.token, call.newPassword, call.row)) else Valid()
    {
      ok := !fails;
      if ok {
        users := map id | id in users :: if users[id].email == email then users[id].(password := hash) else users[id];
        Move(c, WritePassword(hash));
      } else {
        Move(c, Stop);
      }
    }

    method SendRecoveryMail(mail: Mail, fails: bool, ghost c: CallId, ghost call: Call) returns (ok: bool)
      requires At(c, call) && call.RecoveryStored?
      modifies this`outbox, this`run
      ensures Continues() && Valid() && ok == !fails
      ensures outbox == if ok then old(outbox) + [mail] else old(outbox)
    {
      ok := !fails;
      if ok {
        outbox := outbox + [mail];
        Move(c, SendMail);
      } else {
        Move(c, Stop);
      }
    }

    // The operations.

    /** Whatever has run on the object, its table holds at most one row for each address. */
    lemma {:induction false} AtMostOnePending(address: string)
      requires Valid()
      ensures |set i | i in resets && resets[i].email == address| <= 1
    {
      OnePendingWhenSequential(crypto, run, address, |run.states| - 1);
      assert Pending(Last(run), address) == set i | i in resets && resets[i].email == address;
    }

    /** password_recovery from its third statement on: draw a token, insert, mail. */
    method StoreAndMail(email: string, user: Identity, callbackUri: string, world: RecoveryWorld, ghost c: CallId)
      returns (r: Result<(), Error>, ghost rowId: nat)
      requires At(c, RecoveryCleared(email, user))
      modifies this
      ensures Valid() && Continues() && users == old(users)
      ensures Issues(crypto, world, old(resets), email, old(now) + world.beforeStore,
                     Mail(user.email, user.userName, callbackUri + world.token), r, rowId,
                     resets, old(outbox), outbox)
    {
      Elapse(world.beforeStore, c, RecoveryCleared(email, user));
      var rawToken := world.token;
      var ok, row := CreatePasswordReset(email, crypto.digest(rawToken), world.storeFails, c, user, rawToken);
      rowId := row;
      if !ok {
        return Failure(Unknown), rowId;
      }
      Elapse(world.beforeMail, c, RecoveryStored(email, user, rawToken));

      var mail := Mail(user.email, user.userName, callbackUri + rawToken);
      ok := SendRecoveryMail(mail, world.mailFails, c, RecoveryStored(email, user, rawToken));
      r := if ok then Success(()) else Failure(Unknown);
    }

    /** password_recovery from its second statement on. */
    method IssueToken(email: string, user: Identity, callbackUri: string, world: RecoveryWorld, ghost c: CallId)
      returns (r: Result<(), Error>, ghost rowId: nat)
      requires At(c, RecoveryFound(email, user))
      modifies this
      ensures Valid() && Continues() && users == old(users)
      ensures if world.clearFails then r == Failure(Unknown) && resets == old(resets) && outbox == old(outbox)
              else
                Issues(crypto, world, DeletePasswordReset(old(resets), email), email, old(now) + world.beforeStore,
                       Mail(user.email, user.userName, callbackUri + world.token), r, rowId,
                       resets, old(outbox), outbox)
    {
      rowId := 0;
      var ok := DeletePasswordResets(email, world.clearFails, c, RecoveryFound(email, user));
      if !ok {
        return Failure(Unknown), rowId;
      }
      r, rowId := StoreAndMail(email, user, callbackUri, world, c);
    }

    /** password_recovery up to its second statement. */
    method FindRecipient(email: string, world: RecoveryWorld, ghost c: CallId)
      returns (r: Result<Identity, Error>, ghost userId: Uuid)
      requires At(c, RecoveryStarted(email))
      modifies this`now, this`run
      ensures Continues()
      ensures if world.findFails then r == Failure(Unknown) && Valid()
              else if forall id | id in users :: users[id].email != email then r == Failure(NotFound) && Valid()
              else
                && r.Success? && userId in users && users[userId] == r.value && r.value.email == email
                && now == old(now) + world.beforeClear && At(c, RecoveryFound(email, r.value))
    {
      var found;
      found, userId := FindUserByEmail(email, world.findFails, c);
      if found.Failure? {
        return Failure(Unknown), userId;
      }
      if found.value.None? {
        return Failure(NotFound), userId;
      }
      r := Success(found.value.value);
      Elapse(world.beforeClear, c, RecoveryFound(email, r.value));
    }

    /** For a registered address whose calls all go through, exactly one row is then pending, with the digest
        of the token that was mailed to the user there. An address nobody has changes nothing, and a failing
        call stops the recovery after the statements before it. */
    method PasswordRecovery(email: string, callbackUri: string, world: RecoveryWorld)
      returns (r: Result<(), Error>, ghost userId: Uuid, ghost rowId: nat)
      requires Valid()
      modifies this
      ensures Valid() && Continues() && users == old(users)
      ensures var unknown := forall id | id in users :: users[id].email != email;
              if world.findFails then r == Failure(Unknown) && resets == old(resets) && outbox == old(outbox)
              else if unknown then r == Failure(NotFound) && resets == old(resets) && outbox == old(outbox)
              else if world.clearFails then r == Failure(Unknown) && resets == old(resets) && outbox == old(outbox)
              else
                && userId in users && users[userId].email == email
                && Issues(crypto, world, DeletePasswordReset(old(resets), email), email,
                          old(now) + world.beforeClear + world.beforeStore,
                          Mail(email, users[userId].userName, callbackUri + world.token), r, rowId,
                          resets, old(outbox), outbox)
    {
      rowId := 0;
      ghost var c := Begin(StartRecovery(email));
      var recipient;
      recipient, userId := FindRecipient(email, world, c);
      if recipient.Failure? {
        return Failure(recipient.error), userId, rowId;
      }
      r, rowId := IssueToken(email, recipient.value, callbackUri, world, c);
    }

    /** reset_password from its accepted age check on: hash, update, delete. */
    method ApplyReset(row: PasswordReset, newPassword: string, world: ResetWorld, ghost c: CallId, ghost call: Call)
      returns (r: Result<(), Error>)
      requires At(c, call) && call.ResetChecked? && call.row == row && call.newPassword == newPassword
      requires world.hash.Some? ==> crypto.isHash(world.hash.value, newPassword)
      modifies this
      ensures Valid() && Continues() && outbox == old(outbox)
      ensures if world.hash.None? || world.writeFails then
                r == Failure(Unknown) && users == old(users) && resets == old(resets)
              else
                && users == UpdatePassword(old(users), row.email, world.hash.value)
                && if world.clearFails then r == Failure(Unknown) && resets == old(resets)
                   else r.Success? && resets == DeletePasswordReset(old(resets), row.email)
    {
      if world.hash.None? {
        Move(c, Stop);
        return Failure(Unknown);
      }
      Elapse(world.beforeWrite, c, call);

      var ok := StorePassword(row.email, world.hash.value, world.writeFails, c, call);
      if !ok {
        return Failure(Unknown);
      }
      ghost var written := ResetWritten(call.token, call.newPassword, call.row);
      Elapse(world.beforeClear, c, written);

      ok := DeletePasswordResets(row.email, world.clearFails, c, written);
      r := if ok then Success(()) else Failure(Unknown);
    }

    method CheckAge(row: PasswordReset, ghost c: CallId, ghost call: Call) returns (accepted: bool)
      requires At(c, call) && call.ResetFound? && call.row == row
      modifies this`run
      ensures Continues() && (accepted <==> now <= row.createdAt + 15 * 60 * 1_000_000)
      ensures if accepted then At(c, ResetChecked(call.token, call.newPassword, row)) else Valid()
    {
      accepted := !(row.createdAt + RESET_TTL < now);
      if accepted {
        Move(c, AcceptAge);
      } else {
        Move(c, RejectAge);
      }
    }

    /** No older than fifteen minutes, in microseconds. */
    predicate Fresh(row: PasswordReset, at: int) {
      at <= row.createdAt + 15 * 60 * 1_000_000
    }

    /** reset_password up to its accepted age check: find, compare. */
    method FindLiveRow(token: string, newPassword: string, world: ResetWorld, ghost c: CallId)
      returns (r: Result<PasswordReset, Error>, ghost rowId: nat)
      requires At(c, ResetStarted(token, newPassword))
      modifies this`now, this`run
      ensures Continues()
      ensures if world.findFails then r == Failure(Unknown) && Valid()
              else if forall i | i in resets :: resets[i].token != crypto.digest(token) then
                r == Failure(BadRequest) && Valid()
              else
                && rowId in resets && resets[rowId].token == crypto.digest(token)
                && if Fresh(resets[rowId], old(now) + world.beforeCheck) then
                     r == Success(resets[rowId]) && At(c, ResetChecked(token, newPassword, resets[rowId]))
                   else r == Failure(BadRequest) && Valid()
    {
      var found;
      found, rowId := FindPasswordByToken(crypto.digest(token), world.findFails, c, token, newPassword);
      if found.Failure? {
        return Failure(Unknown), rowId;
      }
      if found.value.None? {
        return Failure(BadRequest), rowId;
      }
      var passwordReset := found.value.value;
      Elapse(world.beforeCheck, c, ResetFound(token, newPassword, passwordReset));
      var accepted := CheckAge(passwordReset, c, ResetFound(token, newPassword, passwordReset));
      r := if accepted then Success(passwordReset) else Failure(BadRequest);
    }

    /** When no call fails it succeeds exactly if the row found under the digest of the token is no older than
        fifteen minutes; then the password of exactly that address is the hash of the new one, and no row is
        pending there any more. Without such a row it is a bad request and nothing changes. A failing call is
        the only other outcome, and leaves what the statements before it did. */
    method ResetPassword(token: string, newPassword: string, world: ResetWorld)
      returns (r: Result<(), Error>, ghost rowId: nat)
      requires Valid() && (world.hash.Some? ==> crypto.isHash(world.hash.value, newPassword))
      modifies this
      ensures Valid() && Continues() && outbox == old(outbox)
      ensures var unknown := forall i | i in old(resets) :: old(resets)[i].token != crypto.digest(token);
              if world.findFails then r == Failure(Unknown) && users == old(users) && resets == old(resets)
              else if unknown then r == Failure(BadRequest) && users == old(users) && resets == old(resets)
              else
                && rowId in old(resets) && old(resets)[rowId].token == crypto.digest(token)
                && var row := old(resets)[rowId];
                if !Fresh(row, old(now) + world.beforeCheck) then
                  r == Failure(BadRequest) && users == old(users) && resets == old(resets)
                else if world.hash.None? || world.writeFails then
                  r == Failure(Unknown) && users == old(users) && resets == old(resets)
                else
                  && users == UpdatePassword(old(users), row.email, world.hash.value)
                  && if world.clearFails then r == Failure(Unknown) && resets == old(resets)
                     else
                       && r.Success? && resets == DeletePasswordReset(old(resets), row.email)
                       && forall i | i in resets :: resets[i].email != row.email
      ensures r == Failure(Unknown) ==>
                world.findFails || world.hash.None? || world.writeFails || world.clearFails
    {
      ghost var c := Begin(StartReset(token, newPassword));
      var passwordReset;
      passwordReset, rowId := FindLiveRow(token, newPassword, world, c);
      if passwordReset.Failure? {
        return Failure(passwordReset.error), rowId;
      }
      var row := passwordReset.value;
      r := ApplyReset(row, newPassword, world, c, ResetChecked(token, newPassword, row));
    }
  }
}
