/**
 The life of a reset token: who is mailed it, when it dies, how often it works, and whose password it
 can change.
 */
module ResetTokens {
  import opened Wrappers
  import opened CryptoFunctions
  import opened ResetProtocol
  import opened ResetSafety

  // Death.

  /** Event j deletes the pending resets of an address, in either of the two places that do. */
  ghost predicate DeletesFor(run: Run, j: nat, email: string)
    requires j < |run.events| && |run.states| == |run.events| + 1
  {
    run.events[j].Step? && run.events[j].call in run.states[j].calls
    && var call := run.states[j].calls[run.events[j].call];
    || (run.events[j].action.ClearResets? && call.RecoveryFound? && call.email == email)
    || (run.events[j].action.ConsumeResets? && call.ResetWritten? && call.row.email == email)
  }

  ghost predicate NoRowFor(crypto: Crypto, s: State, token: string) {
    forall r | r in s.resets :: s.resets[r].token != crypto.digest(token)
  }

  /** In every interleaving, any delete for the address of a token that was already stored kills the
      token for good: no later state holds a row for it. */
  lemma {:induction false} DeletedTokenStaysDead(
      crypto: Crypto, run: Run, i: nat, j: nat, n: nat, token: string, email: string)
    requires ValidRun(crypto, run) && InjectiveDigest(crypto) && FreshTokens(run)
    requires i < j < n < |run.states|
    requires StoresToken(run.events[i], token) && StoredFor(run, i, email) && DeletesFor(run, j, email)
    ensures NoRowFor(crypto, run.states[n], token)
  {
    assert StepAt(crypto, run, n - 1);
    if n == j + 1 {
      forall r | r in run.states[n].resets ensures run.states[n].resets[r].token != crypto.digest(token) {
        assert run.states[n].resets[r] == run.states[j].resets[r];
        var i', token' := RowOrigin(crypto, run, j, r);
        if token' == token && i' != i {
          assert false;
        }
      }
    } else {
      DeletedTokenStaysDead(crypto, run, i, j, n - 1, token, email);
      var event := run.events[n - 1];
      if event.Step? && event.action.StoreReset? {
        assert StoresToken(event, event.action.token);
        assert event.action.token != token;
      }
    }
  }

  /** And a row stays until such a delete. */
  lemma {:induction false} RowStays(crypto: Crypto, run: Run, i: nat, n: nat, email: string)
    requires ValidRun(crypto, run) && i < n < |run.states| && StoredFor(run, i, email)
    requires forall j | i < j < n :: !DeletesFor(run, j, email)
    ensures var rowId := run.events[i].action.rowId;
            rowId in run.states[n].resets
            && run.states[n].resets[rowId]
               == PasswordReset(email, crypto.digest(run.events[i].action.token), run.states[i].now)
  {
    assert StepAt(crypto, run, n - 1);
    if i + 1 < n {
      RowStays(crypto, run, i, n - 1, email);
      assert !DeletesFor(run, n - 1, email);
    }
  }

  /** The exact life of a stored token: the table holds a row for it until the first delete for its address,
      and never after. */
  lemma {:induction false} TokenLivesIff(crypto: Crypto, run: Run, i: nat, n: nat, token: string, email: string)
    requires ValidRun(crypto, run) && InjectiveDigest(crypto) && FreshTokens(run) && i < n < |run.states|
    requires StoresToken(run.events[i], token) && StoredFor(run, i, email)
    ensures !NoRowFor(crypto, run.states[n], token) <==> forall j | i < j < n :: !DeletesFor(run, j, email)
  {
    if j :| i < j < n && DeletesFor(run, j, email) {
      DeletedTokenStaysDead(crypto, run, i, j, n, token, email);
    } else {
      RowStays(crypto, run, i, n, email);
    }
  }

  /** So a reset can only find a token that no recovery or reset for its address has deleted since. */
  lemma {:induction false} FoundTokenIsLive(crypto: Crypto, run: Run, i: nat, j: nat, f: nat, c: CallId,
                                            token: string, email: string, row: PasswordReset)
    requires ValidRun(crypto, run) && InjectiveDigest(crypto) && FreshTokens(run)
    requires i < j < |run.events| && f < |run.events|
    requires StoresToken(run.events[i], token) && StoredFor(run, i, email) && DeletesFor(run, j, email)
    requires FindsRow(run, f, c, token, row)
    ensures f < j
  {
    assert StepAt(crypto, run, f);
    if j < f {
      DeletedTokenStaysDead(crypto, run, i, j, f, token, email);
    }
  }

  // Single use.

  /** A finished reset deleted its row at some step, after its find. */
  lemma {:induction false} ConsumeOrigin(crypto: Crypto, run: Run, n: nat, c: CallId) returns (j: nat)
    requires ValidRun(crypto, run) && n < |run.states|
    requires c in run.states[n].calls && run.states[n].calls[c].ResetFinished?
    ensures j < n && run.events[j] == Step(c, ConsumeResets)
    ensures c in run.states[j].calls && run.states[j].calls[c].ResetWritten?
    ensures run.states[j].calls[c].token == run.states[n].calls[c].token
    ensures run.states[j].calls[c].row == run.states[n].calls[c].row
    ensures DeletesFor(run, j, run.states[n].calls[c].row.email)
  {
    assert StepAt(crypto, run, n - 1);
    if run.events[n - 1] == Step(c, ConsumeResets) {
      j := n - 1;
    } else {
      j := ConsumeOrigin(crypto, run, n - 1, c);
    }
  }

  /** In every interleaving: if two resets succeed with one token, each had found the row before the
      other deleted it. Two successes need calls that overlap. */
  lemma {:induction false} SuccessesWithOneTokenOverlap(crypto: Crypto, run: Run, n: nat, a: CallId, b: CallId)
    returns (ja: nat, fb: nat)
    requires ValidRun(crypto, run) && InjectiveDigest(crypto) && FreshTokens(run) && n < |run.states|
    requires a in run.states[n].calls && run.states[n].calls[a].ResetFinished?
    requires b in run.states[n].calls && run.states[n].calls[b].ResetFinished?
    requires run.states[n].calls[a].token == run.states[n].calls[b].token
    ensures fb < ja < n && run.events[ja] == Step(a, ConsumeResets)
    ensures FindsRow(run, fb, b, run.states[n].calls[b].token, run.states[n].calls[b].row)
    ensures forall m | fb < m <= n :: b in run.states[m].calls && HoldsRow(run.states[m].calls[b])
    ensures a in run.states[ja].calls && run.states[ja].calls[a].ResetWritten?
  {
    var token := run.states[n].calls[a].token;
    ja := ConsumeOrigin(crypto, run, n, a);
    fb := FindOrigin(crypto, run, n, b);
    var fa := FindOrigin(crypto, run, ja, a);
    var i, stored := RowOrigin(crypto, run, fa, run.events[fa].action.rowId);
    assert crypto.digest(stored) == crypto.digest(token);
    FoundTokenIsLive(crypto, run, i, ja, fb, b, token, run.states[n].calls[a].row.email, run.states[n].calls[b].row);
  }

  /** A call that has ended stays as it is. */
  lemma {:induction false} EndedStaysEnded(crypto: Crypto, run: Run, m: nat, n: nat, c: CallId)
    requires ValidRun(crypto, run) && m <= n < |run.states|
    requires c in run.states[m].calls && !run.states[m].calls[c].InProgress()
    ensures c in run.states[n].calls && run.states[n].calls[c] == run.states[m].calls[c]
  {
    if m < n {
      EndedStaysEnded(crypto, run, m, n - 1, c);
      OnlyItsOwnSteps(crypto, run, n - 1, c);
    }
  }

  lemma {:induction false} NotOverlapping(crypto: Crypto, run: Run, m: nat, n: nat, a: CallId, b: CallId)
    requires ValidRun(crypto, run) && Sequential(run) && m <= n < |run.states|
    requires a in run.states[m].calls && run.states[m].calls[a].InProgress()
    requires b in run.states[m].calls && b in run.states[n].calls && run.states[n].calls[b].InProgress()
    ensures a == b
  {
    if !run.states[m].calls[b].InProgress() {
      EndedStaysEnded(crypto, run, m, n, b);
    }
    assert OneInProgress(run.states[m]);
  }

  /** When calls run one at a time, a token succeeds at most once. */
  lemma {:induction false} TokenWorksOnceWhenSequential(crypto: Crypto, run: Run, n: nat, a: CallId, b: CallId)
    requires ValidRun(crypto, run) && InjectiveDigest(crypto) && FreshTokens(run) && Sequential(run)
    requires n < |run.states|
    requires a in run.states[n].calls && run.states[n].calls[a].ResetFinished?
    requires b in run.states[n].calls && run.states[n].calls[b].ResetFinished?
    requires run.states[n].calls[a].token == run.states[n].calls[b].token
    ensures a == b
  {
    var ja, fb := SuccessesWithOneTokenOverlap(crypto, run, n, a, b);
    var jb, fa := SuccessesWithOneTokenOverlap(crypto, run, n, b, a);
    if ja <= jb {
      NotOverlapping(crypto, run, ja, jb, a, b);
    } else {
      NotOverlapping(crypto, run, jb, ja, b, a);
    }
  }

  // Overlapping resets.

  /** The second run begins with the first. */
  ghost predicate Continues(run: Run, run': Run) {
    run.events <= run'.events && run.states <= run'.states
  }

  lemma {:induction false} ExtendKeepsFresh(crypto: Crypto, run: Run, event: Event) returns (run': Run)
    requires ValidRun(crypto, run) && FreshTokens(run) && Enabled(crypto, Last(run), event)
    requires event.Step? && event.action.StoreReset? ==> forall i | 0 <= i < |run.events| ::
      !StoresToken(run.events[i], event.action.token)
    ensures ValidRun(crypto, run') && FreshTokens(run') && run'.states[0] == run.states[0]
    ensures Last(run') == Next(crypto, Last(run), event) && Continues(run, run') && run'.events == run.events + [event]
  {
    ExtendIsValid(crypto, run, event);
    run' := Extend(crypto, run, event);
  }

  lemma {:induction false} IssueToken(crypto: Crypto, s0: State, id: Uuid, token: string) returns (run: Run)
    requires s0.calls == map[] && s0.resets == map[] && id in s0.users
    ensures ValidRun(crypto, run) && FreshTokens(run) && run.states[0] == s0
    ensures var user := s0.users[id];
            Last(run) == s0.(resets := map[0 := PasswordReset(user.email, crypto.digest(token), s0.now)],
                             calls := map[0 := RecoveryStored(user.email, user, token)])
  {
    var user := s0.users[id];
    run := Run([s0], []);
    run := ExtendKeepsFresh(crypto, run, Step(0, StartRecovery(user.email)));
    run := ExtendKeepsFresh(crypto, run, Step(0, FindUser(id)));
    run := ExtendKeepsFresh(crypto, run, Step(0, ClearResets));
    assert Last(run).resets == map[];
    run := ExtendKeepsFresh(crypto, run, Step(0, StoreReset(token, 0)));
  }

  /** One reset call, from its start to its accepted age check. */
  lemma {:induction false} OpenReset(crypto: Crypto, run: Run, c: CallId, rowId: nat, token: string, password: string)
    returns (run': Run)
    requires ValidRun(crypto, run) && FreshTokens(run) && c !in Last(run).calls && rowId in Last(run).resets
    requires Last(run).resets[rowId].token == crypto.digest(token) && !Expired(Last(run).resets[rowId], Last(run).now)
    ensures ValidRun(crypto, run') && FreshTokens(run') && run'.states[0] == run.states[0] && Continues(run, run')
    ensures Last(run') == Last(run).(calls :=
              Last(run).calls[c := ResetChecked(token, password, Last(run).resets[rowId])])
  {
    run' := ExtendKeepsFresh(crypto, run, Step(c, StartReset(token, password)));
    run' := ExtendKeepsFresh(crypto, run', Step(c, FindReset(rowId)));
    run' := ExtendKeepsFresh(crypto, run', Step(c, AcceptAge));
  }

  /** And from there to its end. */
  lemma {:induction false} CloseReset(crypto: Crypto, run: Run, c: CallId, hash: string) returns (run': Run)
    requires ValidRun(crypto, run) && FreshTokens(run) && c in Last(run).calls && Last(run).calls[c].ResetChecked?
    requires crypto.isHash(hash, Last(run).calls[c].newPassword)
    ensures ValidRun(crypto, run') && FreshTokens(run') && run'.states[0] == run.states[0] && Continues(run, run')
    ensures var call := Last(run).calls[c];
            Last(run').calls == Last(run).calls[c := ResetFinished(call.token, call.newPassword, call.row)]
  {
    run' := ExtendKeepsFresh(crypto, run, Step(c, WritePassword(hash)));
    run' := ExtendKeepsFresh(crypto, run', Step(c, ConsumeResets));
  }

  /** "A token works once" is false of the code when resets overlap: two resets that both find the row
      before either deletes it both succeed, and the second overwrites the first one's password. */
  lemma {:induction false} OverlappingResetsBothSucceed(crypto: Crypto, s0: State, id: Uuid, token: string,
                                     first: string, second: string, hash1: string, hash2: string) returns (run: Run)
    requires s0.calls == map[] && s0.resets == map[] && id in s0.users
    requires crypto.isHash(hash1, first) && crypto.isHash(hash2, second)
    ensures ValidRun(crypto, run) && FreshTokens(run) && run.states[0] == s0
    ensures 1 in Last(run).calls && Last(run).calls[1].ResetFinished? && Last(run).calls[1].token == token
    ensures 2 in Last(run).calls && Last(run).calls[2].ResetFinished? && Last(run).calls[2].token == token
  {
    run := IssueToken(crypto, s0, id, token);
    run := OpenReset(crypto, run, 1, 0, token, first);
    run := OpenReset(crypto, run, 2, 0, token, second);
    run := CloseReset(crypto, run, 1, hash1);
    run := CloseReset(crypto, run, 2, hash2);
  }

  ghost predicate Finishes(run: Run, c: CallId, token: string)
    requires |run.states| > 0
  {
    c in Last(run).calls && Last(run).calls[c].ResetFinished? && Last(run).calls[c].token == token
  }

  /** And this is so in general: whenever two resets have passed their age checks with one token, whatever
      happened before, both can go on to succeed. */
  lemma {:induction false} CheckedResetsBothSucceed(crypto: Crypto, run: Run, a: CallId, b: CallId,
                                                    hashA: string, hashB: string) returns (run': Run)
    requires ValidRun(crypto, run) && FreshTokens(run) && a != b
    requires a in Last(run).calls && Last(run).calls[a].ResetChecked?
    requires b in Last(run).calls && Last(run).calls[b].ResetChecked?
    requires Last(run).calls[a].token == Last(run).calls[b].token
    requires crypto.isHash(hashA, Last(run).calls[a].newPassword)
             && crypto.isHash(hashB, Last(run).calls[b].newPassword)
    ensures ValidRun(crypto, run') && FreshTokens(run') && Continues(run, run')
    ensures Finishes(run', a, Last(run).calls[a].token) && Finishes(run', b, Last(run).calls[a].token)
  {
    var first := CloseReset(crypto, run, a, hashA);
    run' := CloseReset(crypto, first, b, hashB);
  }

  // When a token works.

  lemma {:induction false} CallsStay(crypto: Crypto, run: Run, m: nat, n: nat)
    requires ValidRun(crypto, run) && m <= n < |run.states|
    ensures run.states[m].calls.Keys <= run.states[n].calls.Keys && run.states[m].now <= run.states[n].now
  {
    if m < n {
      CallsStay(crypto, run, m, n - 1);
      assert StepAt(crypto, run, n - 1);
    }
  }

  /** In some continuation of the run, call c succeeds with the token. */
  ghost predicate CanStillWork(crypto: Crypto, run: Run, c: CallId, token: string)
    requires |run.states| > 0
  {
    exists run' :: ValidRun(crypto, run') && FreshTokens(run') && Continues(run, run') && Finishes(run', c, token)
  }

  lemma {:induction false} LaterThan(crypto: Crypto, run: Run, k: nat, n: nat, c: CallId)
    requires ValidRun(crypto, run) && k < |run.states| && n < |run.states|
    requires c !in run.states[k].calls && c in run.states[n].calls
    ensures k < n
  {
    if n <= k {
      CallsStay(crypto, run, n, k);
    }
  }

  /** A call that begins after the run and succeeds found the row and passed the age check after it. */
  lemma {:induction false} SuccessMeansLive(crypto: Crypto, run: Run, run': Run, i: nat, token: string, email: string,
                                            c: CallId)
    requires ValidRun(crypto, run) && InjectiveDigest(crypto) && i < |run.events| && c !in Last(run).calls
    requires StoresToken(run.events[i], token) && StoredFor(run, i, email)
    requires ValidRun(crypto, run') && FreshTokens(run') && Continues(run, run') && Finishes(run', c, token)
    ensures forall j | i < j < |run.events| :: !DeletesFor(run, j, email)
    ensures Last(run).now <= run.states[i].now + 15 * 60 * 1_000_000
  {
    var k, n := |run.events|, |run'.states| - 1;
    assert run'.states[k] == Last(run);
    var consumed := ConsumeOrigin(crypto, run', n, c);
    var found := FindOrigin(crypto, run', n, c);
    var checked := CheckOrigin(crypto, run', consumed, c);
    LaterThan(crypto, run', k, found, c);
    LaterThan(crypto, run', k, checked, c);
    var row := Last(run').calls[c].row;
    var stored, raw := RowOrigin(crypto, run', found, run'.events[found].action.rowId);
    assert crypto.digest(raw) == crypto.digest(token);
    assert StoresToken(run'.events[i], token) && stored == i;
    CallsStay(crypto, run', k, checked);
    forall j | i < j < k ensures !DeletesFor(run, j, email) {
      if DeletesFor(run, j, email) {
        assert DeletesFor(run', j, email) && StoredFor(run', i, email);
        FoundTokenIsLive(crypto, run', i, j, found, c, token, email, row);
      }
    }
  }

  /** A token can still bring a new reset call to success exactly while no recovery or reset for its address
      has deleted since it was stored and fifteen minutes have not passed. */
  lemma {:induction false} TokenCanStillWorkIff(crypto: Crypto, run: Run, i: nat, token: string, email: string,
                                                c: CallId, password: string, hash: string)
    requires ValidRun(crypto, run) && InjectiveDigest(crypto) && FreshTokens(run) && i < |run.events|
    requires StoresToken(run.events[i], token) && StoredFor(run, i, email)
    requires c !in Last(run).calls && crypto.isHash(hash, password)
    ensures CanStillWork(crypto, run, c, token)
            <==> (forall j | i < j < |run.events| :: !DeletesFor(run, j, email))
                 && Last(run).now <= run.states[i].now + 15 * 60 * 1_000_000
  {
    if CanStillWork(crypto, run, c, token) {
      var run' :| ValidRun(crypto, run') && FreshTokens(run') && Continues(run, run') && Finishes(run', c, token);
      SuccessMeansLive(crypto, run, run', i, token, email, c);
    }
    if (forall j | i < j < |run.events| :: !DeletesFor(run, j, email))
       && Last(run).now <= run.states[i].now + RESET_TTL {
      RowStays(crypto, run, i, |run.events|, email);
      var accepted := OpenReset(crypto, run, c, run.events[i].action.rowId, token, password);
      var run' := CloseReset(crypto, accepted, c, hash);
      assert Finishes(run', c, token) && Continues(run, run');
    }
  }

  // When a token works twice.

  predicate PastCheck(call: Call) {
    call.ResetChecked? || call.ResetWritten? || call.ResetFinished? || call.Failed?
  }

  lemma {:induction false} PastCheckStays(crypto: Crypto, run: Run, m: nat, n: nat, c: CallId)
    requires ValidRun(crypto, run) && m <= n < |run.states|
    requires c in run.states[m].calls && PastCheck(run.states[m].calls[c])
    ensures c in run.states[n].calls && PastCheck(run.states[n].calls[c])
  {
    if m < n {
      PastCheckStays(crypto, run, m, n - 1, c);
      OnlyItsOwnSteps(crypto, run, n - 1, c);
    }
  }

  /** The call has read the row of its token and can still go on with it. */
  ghost predicate MayFinish(s: State, c: CallId)
    requires c in s.calls
  {
    HoldsRow(s.calls[c]) && (s.calls[c].ResetFound? ==> s.now <= s.calls[c].row.createdAt + 15 * 60 * 1_000_000)
  }

  lemma {:induction false} FinishReset(crypto: Crypto, run: Run, c: CallId, token: string, hash: string)
    requires ValidRun(crypto, run) && FreshTokens(run) && c in Last(run).calls && MayFinish(Last(run), c)
    requires Last(run).calls[c].token == token && crypto.isHash(hash, Last(run).calls[c].newPassword)
    ensures CanStillWork(crypto, run, c, token)
  {
    var run' := run;
    match Last(run).calls[c] {
      case ResetFound(_, _, _) =>
        run' := ExtendKeepsFresh(crypto, run, Step(c, AcceptAge));
        run' := CloseReset(crypto, run', c, hash);
      case ResetChecked(_, _, _) => run' := CloseReset(crypto, run, c, hash);
      case ResetWritten(_, _, _) => run' := ExtendKeepsFresh(crypto, run, Step(c, ConsumeResets));
      case ResetFinished(_, _, _) =>
    }
    assert ValidRun(crypto, run') && FreshTokens(run') && Continues(run, run') && Finishes(run', c, token);
  }

  /** A call reads its row once. */
  lemma {:induction false} OneFind(crypto: Crypto, run: Run, n: nat, c: CallId, f: nat, g: nat)
    requires ValidRun(crypto, run) && f < n < |run.states| && g < n
    requires forall m | f < m <= n :: c in run.states[m].calls && HoldsRow(run.states[m].calls[c])
    requires forall m | g < m <= n :: c in run.states[m].calls && HoldsRow(run.states[m].calls[c])
    requires c in run.states[f].calls && run.states[f].calls[c].ResetStarted?
    requires c in run.states[g].calls && run.states[g].calls[c].ResetStarted?
    ensures f == g
  {
  }

  lemma {:induction false} ConsumedBefore(crypto: Crypto, run: Run, k: nat, j: nat, c: CallId)
    requires ValidRun(crypto, run) && k < |run.states| && j < |run.states|
    requires c in run.states[k].calls && run.states[k].calls[c].ResetFinished?
    requires c in run.states[j].calls && run.states[j].calls[c].ResetWritten?
    ensures j < k
  {
    if k <= j {
      EndedStaysEnded(crypto, run, k, j, c);
    }
  }

  lemma {:induction false} SecondHadFound(crypto: Crypto, run: Run, run': Run, a: CallId, b: CallId, token: string)
    requires ValidRun(crypto, run) && InjectiveDigest(crypto) && Finishes(run, a, token)
    requires ValidRun(crypto, run') && FreshTokens(run') && Continues(run, run') && Finishes(run', b, token)
    requires b in Last(run).calls
    ensures HoldsRow(Last(run).calls[b])
  {
    var k, n := |run.events|, |run'.states| - 1;
    assert run'.states[k] == Last(run);
    var found := FindOrigin(crypto, run', n, b);
    if found >= k {
      EndedStaysEnded(crypto, run', k, n, a);
      var consumed, foundB := SuccessesWithOneTokenOverlap(crypto, run', n, a, b);
      OneFind(crypto, run', n, b, found, foundB);
      ConsumedBefore(crypto, run', k, consumed, a);
    }
  }

  lemma {:induction false} FoundStays(crypto: Crypto, run: Run, m: nat, n: nat, c: CallId)
    requires ValidRun(crypto, run) && m <= n < |run.states|
    requires c in run.states[m].calls && (HoldsRow(run.states[m].calls[c]) || run.states[m].calls[c].Failed?)
    ensures c in run.states[n].calls && (HoldsRow(run.states[n].calls[c]) || run.states[n].calls[c].Failed?)
  {
    if m < n {
      FoundStays(crypto, run, m, n - 1, c);
      OnlyItsOwnSteps(crypto, run, n - 1, c);
    }
  }

  lemma {:induction false} SecondIsInTime(crypto: Crypto, run: Run, run': Run, b: CallId, token: string)
    requires ValidRun(crypto, run) && ValidRun(crypto, run') && Continues(run, run') && Finishes(run', b, token)
    requires b in Last(run).calls && Last(run).calls[b].ResetFound?
    ensures Last(run).now <= Last(run).calls[b].row.createdAt + 15 * 60 * 1_000_000
  {
    var k, n := |run.events|, |run'.states| - 1;
    assert run'.states[k] == Last(run);
    var consumed := ConsumeOrigin(crypto, run', n, b);
    var checked := CheckOrigin(crypto, run', consumed, b);
    assert StepAt(crypto, run', checked);
    if checked < k {
      PastCheckStays(crypto, run', checked + 1, k, b);
    }
    CallsStay(crypto, run', k, checked);
    var found := FindOrigin(crypto, run', n, b);
    if k <= found {
      FoundStays(crypto, run', k, found, b);
    }
  }

  /** Exactly when a token works twice: after one reset has succeeded with it, another that was begun with it
      can still succeed if and only if it had read the row before, and is past the age check or still in time
      for it. */
  lemma {:induction false} SecondSuccessIff(crypto: Crypto, run: Run, a: CallId, b: CallId, token: string, hash: string)
    requires ValidRun(crypto, run) && InjectiveDigest(crypto) && FreshTokens(run) && Finishes(run, a, token)
    requires b in Last(run).calls && (Last(run).calls[b].ResetStarted? || HoldsRow(Last(run).calls[b]))
    requires Last(run).calls[b].token == token && crypto.isHash(hash, Last(run).calls[b].newPassword)
    ensures CanStillWork(crypto, run, b, token) <==> MayFinish(Last(run), b)
  {
    if CanStillWork(crypto, run, b, token) {
      var run' :| ValidRun(crypto, run') && FreshTokens(run') && Continues(run, run') && Finishes(run', b, token);
      SecondHadFound(crypto, run, run', a, b, token);
      if Last(run).calls[b].ResetFound? {
        SecondIsInTime(crypto, run, run', b, token);
      }
    }
    if MayFinish(Last(run), b) {
      FinishReset(crypto, run, b, token, hash);
    }
  }

  // Later recoveries.

  lemma {:induction false} ClearOrigin(crypto: Crypto, run: Run, n: nat, c: CallId) returns (j: nat)
    requires ValidRun(crypto, run) && n < |run.states|
    requires c in run.states[n].calls && run.states[n].calls[c].RecoveryCleared?
    ensures j < n && run.events[j] == Step(c, ClearResets) && DeletesFor(run, j, run.states[n].calls[c].email)
    ensures forall m | j < m <= n :: c in run.states[m].calls && run.states[m].calls[c].RecoveryCleared?
  {
    assert StepAt(crypto, run, n - 1);
    if run.events[n - 1] == Step(c, ClearResets) {
      j := n - 1;
    } else {
      j := ClearOrigin(crypto, run, n - 1, c);
    }
  }

  /** When calls run one at a time, only the token of the latest recovery for an address is ever live:
      once a later recovery has stored its own, every earlier token is dead for good. */
  lemma {:induction false} OnlyTheLatestTokenLives(crypto: Crypto, run: Run, i: nat, i': nat, n: nat, token: string,
      email: string)
    requires ValidRun(crypto, run) && InjectiveDigest(crypto) && FreshTokens(run) && Sequential(run)
    requires i < i' < n < |run.states|
    requires StoresToken(run.events[i], token) && StoredFor(run, i, email) && StoredFor(run, i', email)
    ensures NoRowFor(crypto, run.states[n], token)
  {
    var c := run.events[i'].call;
    var j := ClearOrigin(crypto, run, i', c);
    assert StepAt(crypto, run, i);
    if j < i {
      assert false;
    } else {
      assert i != j;
      DeletedTokenStaysDead(crypto, run, i, j, n, token, email);
    }
  }

  // The mail.

  lemma {:induction false} FoundUserHasAddress(crypto: Crypto, run: Run, n: nat, c: CallId)
    requires ValidRun(crypto, run) && n < |run.states| && c in run.states[n].calls
    requires run.states[n].calls[c].RecoveryFound? || run.states[n].calls[c].RecoveryCleared?
    ensures run.states[n].calls[c].user.email == run.states[n].calls[c].email
  {
    assert StepAt(crypto, run, n - 1);
    var event := run.events[n - 1];
    if !(event.Step? && event.call == c && event.action.FindUser?) {
      FoundUserHasAddress(crypto, run, n - 1, c);
    }
  }

  /** A raw token is mailed only to the address it was stored for. */
  lemma {:induction false} TokenIsMailedToItsAddress(crypto: Crypto, run: Run, n: nat, c: CallId) returns (i: nat)
    requires ValidRun(crypto, run) && n < |run.states|
    requires c in run.states[n].calls && run.states[n].calls[c].RecoveryStored?
    ensures i < n && StoresToken(run.events[i], run.states[n].calls[c].token)
    ensures StoredFor(run, i, run.states[n].calls[c].user.email)
  {
    assert StepAt(crypto, run, n - 1);
    var event := run.events[n - 1];
    if event.Step? && event.call == c && event.action.StoreReset? {
      i := n - 1;
      FoundUserHasAddress(crypto, run, n - 1, c);
    } else {
      i := TokenIsMailedToItsAddress(crypto, run, n - 1, c);
    }
  }

  // Passwords.

  /** The hash most recently written for an address in the first n events. */
  ghost function LastWrite(run: Run, n: nat, email: string): Option<string>
    requires n <= |run.events| && |run.states| == |run.events| + 1
  {
    if n == 0 then None
    else
      var event := run.events[n - 1];
      if event.Step? && event.action.WritePassword? && event.call in run.states[n - 1].calls
         && run.states[n - 1].calls[event.call].ResetChecked?
         && run.states[n - 1].calls[event.call].row.email == email
      then Some(event.action.hash)
      else LastWrite(run, n - 1, email)
  }

  /** In every interleaving, a user row is the row it started as, but for the password, and that is the
      last one written for its own address. Nothing else in the users table ever changes. */
  lemma {:induction false} PasswordIsTheLastOneWritten(crypto: Crypto, run: Run, n: nat, id: Uuid)
    requires ValidRun(crypto, run) && n <= |run.events|
    ensures run.states[n].users.Keys == run.states[0].users.Keys
    ensures id in run.states[0].users ==>
              var user := run.states[0].users[id];
              run.states[n].users[id] ==
              match LastWrite(run, n, user.email) case Some(hash) => user.(password := hash) case None => user
  {
    if n > 0 {
      PasswordIsTheLastOneWritten(crypto, run, n - 1, id);
      assert StepAt(crypto, run, n - 1);
    }
  }
}
