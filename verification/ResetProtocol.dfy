/**
 The password-reset protocol as a transition system. Neither password_recovery
 nor reset_password runs in a transaction, so every store call is one step: the
 steps of different calls interleave freely, time passes between them, and a call
 in progress may stop after any of its steps (a store error, a failed mail, a
 dropped request).
 */
module ResetProtocol {
  import opened CryptoFunctions
  import opened Wrappers

  // Times are microseconds; PASSWORD_RESET_TTL_MINUTES is 15.
  const RESET_TTL: int := 15 * 60 * 1_000_000

  datatype Identity = Identity(email: string, userName: string, password: string)

  datatype PasswordReset = PasswordReset(email: string, token: string, createdAt: int)

  /** Where a call stands. Each constructor holds exactly the local variables that are live there. */
  datatype Call =
    | RecoveryStarted(email: string)
    | RecoveryFound(email: string, user: Identity)
    | RecoveryCleared(email: string, user: Identity)
    | RecoveryStored(email: string, user: Identity, token: string)
    | RecoveryFinished(email: string, user: Identity, token: string)
    | ResetStarted(token: string, newPassword: string)
    | ResetFound(token: string, newPassword: string, row: PasswordReset)
    | ResetChecked(token: string, newPassword: string, row: PasswordReset)
    | ResetWritten(token: string, newPassword: string, row: PasswordReset)
    | ResetFinished(token: string, newPassword: string, row: PasswordReset)
    | Failed
  {
    predicate InProgress() {
      !RecoveryFinished? && !ResetFinished? && !Failed?
    }
  }

  type CallId = nat

  /** Both tables, keyed by primary key and by (hidden) row identifier, the calls, and the clock.
      Nothing makes the email of a pending reset unique, so neither do the keys of resets. */
  datatype State = State(
    users: map<Uuid, Identity>,
    resets: map<nat, PasswordReset>,
    calls: map<CallId, Call>,
    now: int)

  datatype Action =
    | StartRecovery(email: string)
    | FindUser(id: Uuid)
    | FindNoUser
    | ClearResets
    | StoreReset(token: string, rowId: nat)
    | SendMail
    | StartReset(token: string, newPassword: string)
    | FindReset(rowId: nat)
    | FindNoReset
    | AcceptAge
    | RejectAge
    | WritePassword(hash: string)
    | ConsumeResets
    | Stop

  datatype Event = Step(call: CallId, action: Action) | Tick(elapsed: nat)

  // The statements of the auth store, as table operations.

  function DeletePasswordReset(resets: map<nat, PasswordReset>, email: string): map<nat, PasswordReset> {
    map i | i in resets && resets[i].email != email :: resets[i]
  }

  function UpdatePassword(users: map<Uuid, Identity>, email: string, hash: string): map<Uuid, Identity> {
    map id | id in users :: if users[id].email == email then users[id].(password := hash) else users[id]
  }

  predicate Expired(row: PasswordReset, now: int) {
    row.createdAt + RESET_TTL < now
  }

  ghost predicate Enabled(crypto: Crypto, s: State, event: Event) {
    match event
    case Tick(_) => true
    case Step(c, StartRecovery(_)) => c !in s.calls
    case Step(c, StartReset(_, _)) => c !in s.calls
    case Step(c, FindUser(id)) =>
      c in s.calls && s.calls[c].RecoveryStarted? && id in s.users && s.users[id].email == s.calls[c].email
    case Step(c, FindNoUser) =>
      c in s.calls && s.calls[c].RecoveryStarted? && forall id | id in s.users :: s.users[id].email != s.calls[c].email
    case Step(c, ClearResets) => c in s.calls && s.calls[c].RecoveryFound?
    case Step(c, StoreReset(_, rowId)) => c in s.calls && s.calls[c].RecoveryCleared? && rowId !in s.resets
    case Step(c, SendMail) => c in s.calls && s.calls[c].RecoveryStored?
    case Step(c, FindReset(rowId)) =>
      c in s.calls && s.calls[c].ResetStarted? && rowId in s.resets
      && s.resets[rowId].token == crypto.digest(s.calls[c].token)
    case Step(c, FindNoReset) =>
      c in s.calls && s.calls[c].ResetStarted?
      && forall i | i in s.resets :: s.resets[i].token != crypto.digest(s.calls[c].token)
    case Step(c, AcceptAge) => c in s.calls && s.calls[c].ResetFound? && !Expired(s.calls[c].row, s.now)
    case Step(c, RejectAge) => c in s.calls && s.calls[c].ResetFound? && Expired(s.calls[c].row, s.now)
    case Step(c, WritePassword(hash)) =>
      c in s.calls && s.calls[c].ResetChecked? && crypto.isHash(hash, s.calls[c].newPassword)
    case Step(c, ConsumeResets) => c in s.calls && s.calls[c].ResetWritten?
    case Step(c, Stop) => c in s.calls && s.calls[c].InProgress()
  }

  /** The call's next local state. */
  ghost function Advance(crypto: Crypto, s: State, c: CallId, action: Action): Call
    requires Enabled(crypto, s, Step(c, action))
  {
    match action
    case StartRecovery(email) => RecoveryStarted(email)
    case FindUser(id) => RecoveryFound(s.calls[c].email, s.users[id])
    case ClearResets => RecoveryCleared(s.calls[c].email, s.calls[c].user)
    case StoreReset(token, _) => RecoveryStored(s.calls[c].email, s.calls[c].user, token)
    case SendMail => RecoveryFinished(s.calls[c].email, s.calls[c].user, s.calls[c].token)
    case StartReset(token, newPassword) => ResetStarted(token, newPassword)
    case FindReset(rowId) => ResetFound(s.calls[c].token, s.calls[c].newPassword, s.resets[rowId])
    case AcceptAge => ResetChecked(s.calls[c].token, s.calls[c].newPassword, s.calls[c].row)
    case WritePassword(_) => ResetWritten(s.calls[c].token, s.calls[c].newPassword, s.calls[c].row)
    case ConsumeResets => ResetFinished(s.calls[c].token, s.calls[c].newPassword, s.calls[c].row)
    case FindNoUser => Failed
    case FindNoReset => Failed
    case RejectAge => Failed
    case Stop => Failed
  }

  ghost function Next(crypto: Crypto, s: State, event: Event): State
    requires Enabled(crypto, s, event)
  {
    match event
    case Tick(elapsed) => s.(now := s.now + elapsed)
    case Step(c, action) =>
      var s' := s.(calls := s.calls[c := Advance(crypto, s, c, action)]);
      match action
      case ClearResets => s'.(resets := DeletePasswordReset(s.resets, s.calls[c].email))
      case StoreReset(token, rowId) =>
        s'.(resets := s.resets[rowId := PasswordReset(s.calls[c].email, crypto.digest(token), s.now)])
      case WritePassword(hash) => s'.(users := UpdatePassword(s.users, s.calls[c].row.email, hash))
      case ConsumeResets => s'.(resets := DeletePasswordReset(s.resets, s.calls[c].row.email))
      case _ => s'
  }

  // Runs.

  datatype Run = Run(states: seq<State>, events: seq<Event>)

  ghost predicate StepAt(crypto: Crypto, run: Run, i: nat)
    requires i < |run.events| && |run.states| == |run.events| + 1
  {
    Enabled(crypto, run.states[i], run.events[i])
    && run.states[i + 1] == Next(crypto, run.states[i], run.events[i])
  }

  /** A run of any length, from any users table, before any call and with no reset pending. */
  ghost predicate ValidRun(crypto: Crypto, run: Run) {
    && |run.states| == |run.events| + 1
    && run.states[0].calls == map[]
    && run.states[0].resets == map[]
    && forall i: nat | i < |run.events| :: StepAt(crypto, run, i)
  }

  ghost predicate StoresToken(event: Event, token: string) {
    event.Step? && event.action.StoreReset? && event.action.token == token
  }

  /** random_token never returns the same token twice. */
  ghost predicate FreshTokens(run: Run) {
    forall i, j, token | 0 <= i < j < |run.events| && StoresToken(run.events[i], token) ::
      !StoresToken(run.events[j], token)
  }

  ghost predicate OneInProgress(s: State) {
    forall c, d | c in s.calls && d in s.calls && s.calls[c].InProgress() && s.calls[d].InProgress() :: c == d
  }

  /** One call at a time: no state of the run has two calls in progress. */
  ghost predicate Sequential(run: Run) {
    forall i | 0 <= i < |run.states| :: OneInProgress(run.states[i])
  }

  // Appending one event.

  ghost function Last(run: Run): State
    requires |run.states| > 0
  {
    run.states[|run.states| - 1]
  }

  ghost function Extend(crypto: Crypto, run: Run, event: Event): Run
    requires |run.states| > 0 && Enabled(crypto, Last(run), event)
  {
    Run(run.states + [Next(crypto, Last(run), event)], run.events + [event])
  }

  lemma {:induction false} ExtendIsValid(crypto: Crypto, run: Run, event: Event)
    requires ValidRun(crypto, run) && Enabled(crypto, Last(run), event)
    ensures ValidRun(crypto, Extend(crypto, run, event))
    ensures Last(Extend(crypto, run, event)) == Next(crypto, Last(run), event)
  {
    var run' := Extend(crypto, run, event);
    forall i: nat | i < |run'.events| ensures StepAt(crypto, run', i) {
      if i < |run.events| {
        assert StepAt(crypto, run, i);
      }
    }
  }
}
