/**
 Runs of the service through its handlers. Transactions commit one after another, but the check that the
 user exists runs outside them: it may have seen the tables as they were any number of commits ago.
 */
module UserRuns {
  import opened Wrappers
  import opened CryptoFunctions
  import opened IamTables
  import opened Passwords
  import opened UserTables
  import opened UserUpdates
  import opened UserServices
  import opened UserRepositories
  import opened Rbac

  datatype Event =
    | CreateUserEvent(user: CreateUser, id: Uuid, hash: string)
    | PatchEvent(checkedAt: nat, id: Uuid, fields: UpdateUser, hash: string)
    | PatchMyUserEvent(checkedAt: nat, id: Uuid, fields: UpdateUser)
    | DeleteEvent(checkedAt: nat, id: Uuid)
    | ResetPasswordEvent(email: string, password: string, hash: string)
    | FailedEvent

  datatype Run = Run(states: seq<Tables>, events: seq<Event>)

  /** Event i takes the tables from state i to state i + 1. The create and reset handlers validate the
      password, the patch service checks it, and the self-service handler restricts the patch. */
  ghost predicate StepAt(crypto: Crypto, classes: CharClasses, run: Run, i: nat)
    requires i < |run.events| && |run.states| == |run.events| + 1
  {
    var t, t' := run.states[i], run.states[i + 1];
    match run.events[i]
    case CreateUserEvent(user, id, hash) =>
      StrongPassword(classes, user.password) && crypto.isHash(hash, user.password)
      && CreateCommits(t, user, id, hash, t')
    case PatchEvent(checkedAt, id, fields, hash) =>
      checkedAt <= i && Visible(run.states[checkedAt], id) && PasswordAccepted(classes, crypto, fields, hash)
      && PatchCommits(t, id, Hashed(fields, hash), t')
    case PatchMyUserEvent(checkedAt, id, fields) =>
      checkedAt <= i && Visible(run.states[checkedAt], id) && PatchCommits(t, id, fields.RestrictedToSelf(), t')
    case DeleteEvent(checkedAt, id) =>
      checkedAt <= i && Visible(run.states[checkedAt], id) && DELETED_USER_STATUS in t.statuses
      && DeleteCommits(t, id, t')
    case ResetPasswordEvent(email, password, hash) =>
      StrongPassword(classes, password) && crypto.isHash(hash, password) && t' == UpdatePasswords(t, email, hash)
    case FailedEvent => t' == t
  }

  ghost predicate ValidRun(crypto: Crypto, classes: CharClasses, run: Run) {
    && |run.states| == |run.events| + 1 && Consistent(run.states[0])
    && forall i: nat | i < |run.events| :: StepAt(crypto, classes, run, i)
  }

  /** Nothing but users and their roles ever changes. */
  ghost predicate SameCatalogue(t: Tables, t': Tables) {
    && t.statuses == t'.statuses && t.companies == t'.companies && t.departments == t'.departments
    && t.permissions == t'.permissions && t.roles == t'.roles && t.rolePermissions == t'.rolePermissions
  }

  ghost predicate KeepsTables(t: Tables, t': Tables) {
    Consistent(t') && SameCatalogue(t, t') && t.users.Keys <= t'.users.Keys
  }

  lemma {:induction false} CreateStep(crypto: Crypto, classes: CharClasses, run: Run, i: nat)
    requires i < |run.events| && |run.states| == |run.events| + 1 && StepAt(crypto, classes, run, i)
    requires Consistent(run.states[i]) && run.events[i].CreateUserEvent?
    ensures KeepsTables(run.states[i], run.states[i + 1])
  {
    var e := run.events[i];
    CreateKeepsConsistency(run.states[i], e.user, e.id, e.hash, run.states[i + 1]);
  }

  lemma {:induction false} PatchKeepsCatalogue(t: Tables, id: Uuid, fields: UpdateUser, t': Tables)
    requires PatchCommits(t, id, fields, t')
    ensures SameCatalogue(t, t')
  {
  }

  lemma {:induction false} PatchKeepsTables(t: Tables, id: Uuid, fields: UpdateUser, t': Tables)
    requires Consistent(t) && id in t.users && PatchCommits(t, id, fields, t')
    ensures KeepsTables(t, t')
  {
    PatchKeepsConsistency(t, id, fields, t');
    PatchKeepsCatalogue(t, id, fields, t');
  }

  lemma {:induction false} PatchStep(crypto: Crypto, classes: CharClasses, run: Run, i: nat)
    requires i < |run.events| && |run.states| == |run.events| + 1 && StepAt(crypto, classes, run, i)
    requires Consistent(run.states[i]) && run.events[i].PatchEvent?
    requires forall m | 0 <= m <= i :: run.states[m].users.Keys <= run.states[i].users.Keys
    ensures KeepsTables(run.states[i], run.states[i + 1])
  {
    var e := run.events[i];
    assert e.id in run.states[e.checkedAt].users;
    PatchKeepsTables(run.states[i], e.id, Hashed(e.fields, e.hash), run.states[i + 1]);
  }

  lemma {:induction false} PatchMyUserStep(crypto: Crypto, classes: CharClasses, run: Run, i: nat)
    requires i < |run.events| && |run.states| == |run.events| + 1 && StepAt(crypto, classes, run, i)
    requires Consistent(run.states[i]) && run.events[i].PatchMyUserEvent?
    requires forall m | 0 <= m <= i :: run.states[m].users.Keys <= run.states[i].users.Keys
    ensures KeepsTables(run.states[i], run.states[i + 1])
  {
    var e := run.events[i];
    assert e.id in run.states[e.checkedAt].users;
    PatchKeepsTables(run.states[i], e.id, e.fields.RestrictedToSelf(), run.states[i + 1]);
  }

  lemma {:induction false} DeleteStep(crypto: Crypto, classes: CharClasses, run: Run, i: nat)
    requires i < |run.events| && |run.states| == |run.events| + 1 && StepAt(crypto, classes, run, i)
    requires Consistent(run.states[i]) && run.events[i].DeleteEvent?
    ensures KeepsTables(run.states[i], run.states[i + 1])
  {
    DeleteKeepsConsistency(run.states[i], run.events[i].id, run.states[i + 1]);
  }

  lemma {:induction false} ResetPasswordStep(crypto: Crypto, classes: CharClasses, run: Run, i: nat)
    requires i < |run.events| && |run.states| == |run.events| + 1 && StepAt(crypto, classes, run, i)
    requires Consistent(run.states[i]) && run.events[i].ResetPasswordEvent?
    ensures KeepsTables(run.states[i], run.states[i + 1])
  {
    UpdatePasswordsKeepsConsistency(run.states[i], run.events[i].email, run.events[i].hash);
  }

  lemma {:induction false} StepStaysConsistent(crypto: Crypto, classes: CharClasses, run: Run, i: nat)
    requires ValidRun(crypto, classes, run) && i < |run.events| && Consistent(run.states[i])
    requires forall m | 0 <= m <= i :: run.states[m].users.Keys <= run.states[i].users.Keys
    ensures KeepsTables(run.states[i], run.states[i + 1])
  {
    match run.events[i] {
      case CreateUserEvent(_, _, _) => CreateStep(crypto, classes, run, i);
      case PatchEvent(_, _, _, _) => PatchStep(crypto, classes, run, i);
      case PatchMyUserEvent(_, _, _) => PatchMyUserStep(crypto, classes, run, i);
      case DeleteEvent(_, _) => DeleteStep(crypto, classes, run, i);
      case ResetPasswordEvent(_, _, _) => ResetPasswordStep(crypto, classes, run, i);
      case FailedEvent => assert StepAt(crypto, classes, run, i);
    }
  }

  /** Over every run: user names and emails stay unique, all foreign keys hold, and no user id that was
      there in an earlier state has disappeared. */
  lemma {:induction false} RunsStayConsistent(crypto: Crypto, classes: CharClasses, run: Run, n: nat)
    requires ValidRun(crypto, classes, run) && n < |run.states|
    ensures Consistent(run.states[n]) && SameCatalogue(run.states[0], run.states[n])
    ensures forall m | 0 <= m <= n :: run.states[m].users.Keys <= run.states[n].users.Keys
  {
    if n > 0 {
      RunsStayConsistent(crypto, classes, run, n - 1);
      StepStaysConsistent(crypto, classes, run, n - 1);
    }
  }

  /** The existence check made outside the transaction still holds when the UPDATE runs, however many
      commits lie between. */
  lemma {:induction false} CheckedUserStillExists(crypto: Crypto, classes: CharClasses, run: Run, i: nat, id: Uuid)
    requires ValidRun(crypto, classes, run) && i < |run.events|
    requires match run.events[i]
             case PatchEvent(_, user, _, _) => user == id
             case PatchMyUserEvent(_, user, _) => user == id
             case DeleteEvent(_, user) => user == id
             case _ => false
    ensures id in run.states[i].users
  {
    assert StepAt(crypto, classes, run, i);
    RunsStayConsistent(crypto, classes, run, i);
  }

  // Passwords.

  ghost predicate HashOfStrong(crypto: Crypto, classes: CharClasses, hash: string) {
    exists password :: MeetsAllRules(classes, password) && crypto.isHash(hash, password)
  }

  ghost predicate KeptOrStrong(crypto: Crypto, classes: CharClasses, t: Tables, t': Tables, id: Uuid)
    requires id in t'.users
  {
    || (id in t.users && t'.users[id].password == t.users[id].password)
    || HashOfStrong(crypto, classes, t'.users[id].password)
  }

  lemma {:induction false} CreatedPassword(crypto: Crypto, classes: CharClasses, run: Run, i: nat, id: Uuid)
    requires i < |run.events| && |run.states| == |run.events| + 1 && StepAt(crypto, classes, run, i)
    requires run.events[i].CreateUserEvent? && id in run.states[i + 1].users
    ensures KeptOrStrong(crypto, classes, run.states[i], run.states[i + 1], id)
  {
    BothCheckersAcceptTheRules(classes, run.events[i].user.password);
  }

  lemma {:induction false} PatchedPassword(crypto: Crypto, classes: CharClasses, run: Run, i: nat, id: Uuid)
    requires i < |run.events| && |run.states| == |run.events| + 1 && StepAt(crypto, classes, run, i)
    requires run.events[i].PatchEvent? && id in run.states[i + 1].users
    ensures KeptOrStrong(crypto, classes, run.states[i], run.states[i + 1], id)
  {
    if run.events[i].fields.password.Some? {
      BothCheckersAcceptTheRules(classes, run.events[i].fields.password.value);
    }
  }

  lemma {:induction false} ResetPassword(crypto: Crypto, classes: CharClasses, run: Run, i: nat, id: Uuid)
    requires i < |run.events| && |run.states| == |run.events| + 1 && StepAt(crypto, classes, run, i)
    requires run.events[i].ResetPasswordEvent? && id in run.states[i + 1].users
    ensures KeptOrStrong(crypto, classes, run.states[i], run.states[i + 1], id)
  {
    BothCheckersAcceptTheRules(classes, run.events[i].password);
  }

  lemma {:induction false} StepKeepsPasswords(crypto: Crypto, classes: CharClasses, run: Run, i: nat, id: Uuid)
    requires ValidRun(crypto, classes, run) && i < |run.events| && id in run.states[i + 1].users
    ensures KeptOrStrong(crypto, classes, run.states[i], run.states[i + 1], id)
  {
    match run.events[i] {
      case CreateUserEvent(_, _, _) => CreatedPassword(crypto, classes, run, i, id);
      case PatchEvent(_, _, _, _) => PatchedPassword(crypto, classes, run, i, id);
      case ResetPasswordEvent(_, _, _) => ResetPassword(crypto, classes, run, i, id);
      case _ => assert StepAt(crypto, classes, run, i);
    }
  }

  /** Every stored password is the one the user started with or the hash of one that meets all five rules. */
  lemma {:induction false} StoredPasswordsMeetTheRules(crypto: Crypto, classes: CharClasses, run: Run, n: nat, id: Uuid)
    requires ValidRun(crypto, classes, run) && n < |run.states| && id in run.states[n].users
    ensures (id in run.states[0].users && run.states[n].users[id].password == run.states[0].users[id].password)
            || HashOfStrong(crypto, classes, run.states[n].users[id].password)
  {
    if n > 0 {
      StepKeepsPasswords(crypto, classes, run, n - 1, id);
      if id in run.states[n - 1].users {
        StoredPasswordsMeetTheRules(crypto, classes, run, n - 1, id);
      }
    }
  }

  // Self-service.

  ghost predicate SelfServiceOnly(run: Run) {
    forall i | 0 <= i < |run.events| :: run.events[i].PatchMyUserEvent? || run.events[i].FailedEvent?
  }

  /** A self patch changes at most the avatar, the two names and the department of its own user. */
  lemma {:induction false} SelfPatchKeepsAccount(t: Tables, id: Uuid, fields: UpdateUser, t': Tables)
    requires PatchCommits(t, id, fields.RestrictedToSelf(), t')
    ensures t'.userRoles == t.userRoles && SameCatalogue(t, t') && t'.users.Keys == t.users.Keys
    ensures forall u | u in t.users ::
              && t'.users[u].email == t.users[u].email && t'.users[u].password == t.users[u].password
              && t'.users[u].statusId == t.users[u].statusId && t'.users[u].userName == t.users[u].userName
              && (u != id ==> t'.users[u] == t.users[u])
    ensures id in t.users ==>
              t'.users[id] == t.users[id].(avatarId := OrElse(fields.avatarId, t.users[id].avatarId),
                                           firstName := OrElse(fields.firstName, t.users[id].firstName),
                                           lastName := OrElse(fields.lastName, t.users[id].lastName),
                                           departmentId := OrElse(fields.departmentId, t.users[id].departmentId))
  {
    var t1 := PatchColumns(t, id, fields.RestrictedToSelf()).value;
    assert RolesNamed(t1, []) == {} && Links(id, {}) == {};
    assert t1.users.Keys == t.users.Keys;
  }

  /** After any self patches by any users, everybody's email, password, status and roles, and everything
      anybody is allowed to do, are as they were. */
  lemma {:induction false} SelfServiceKeepsAccounts(crypto: Crypto, classes: CharClasses, run: Run, n: nat)
    requires ValidRun(crypto, classes, run) && SelfServiceOnly(run) && n < |run.states|
    ensures var t, t' := run.states[0], run.states[n];
            && t'.userRoles == t.userRoles && SameCatalogue(t, t') && t'.users.Keys == t.users.Keys
            && forall u | u in t.users ::
                 t'.users[u].email == t.users[u].email && t'.users[u].password == t.users[u].password
                 && t'.users[u].statusId == t.users[u].statusId && t'.users[u].userName == t.users[u].userName
  {
    if n > 0 {
      SelfServiceKeepsAccounts(crypto, classes, run, n - 1);
      assert StepAt(crypto, classes, run, n - 1);
      if run.events[n - 1].PatchMyUserEvent? {
        SelfPatchKeepsAccount(run.states[n - 1], run.events[n - 1].id, run.events[n - 1].fields, run.states[n]);
      }
    }
  }

  lemma {:induction false} SameLinksSameAnswers(t: Tables, t': Tables, superRole: string, user: Uuid)
    requires t'.userRoles == t.userRoles && SameCatalogue(t, t')
    ensures RoleNames(t', user) == RoleNames(t, user) && (NullGranted(t', user) <==> NullGranted(t, user))
    ensures forall action :: Allowed(t', superRole, user, action) <==> Allowed(t, superRole, user, action)
  {
    forall action ensures Allowed(t', superRole, user, action) <==> Allowed(t, superRole, user, action) {
      AllowedIsMonotone(t, t', superRole, user, action);
      AllowedIsMonotone(t', t, superRole, user, action);
    }
  }

  /** Whatever stores serve the tables before and after, as long as they answer: every answer of `can` and of
      `can_any` is as it was. */
  lemma {:induction false} SelfServiceKeepsPermissions(crypto: Crypto, classes: CharClasses, run: Run, n: nat,
                                                       before: RbacEngine, after: RbacEngine, user: Uuid)
    requires ValidRun(crypto, classes, run) && SelfServiceOnly(run) && n < |run.states|
    requires before.superRole == after.superRole
    requires Reliable(before.store, run.states[0], user) && Reliable(after.store, run.states[n], user)
    ensures forall action :: after.Can(user, action) <==> before.Can(user, action)
    ensures forall actions :: after.MayAny(user, actions) <==> before.MayAny(user, actions)
  {
    var t, t' := run.states[0], run.states[n];
    SelfServiceKeepsAccounts(crypto, classes, run, n);
    SameLinksSameAnswers(t, t', before.superRole, user);
    forall action ensures after.Can(user, action) <==> before.Can(user, action) {
      before.CanIsAllowed(t, user, action);
      after.CanIsAllowed(t', user, action);
    }
    forall actions ensures after.MayAny(user, actions) <==> before.MayAny(user, actions) {
      before.CanAnyIsAllowed(t, user, actions);
      after.CanAnyIsAllowed(t', user, actions);
    }
  }
}
