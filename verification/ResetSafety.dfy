/**
 What holds of the password-reset protocol in every interleaving, and what only holds when one call
 runs at a time.
 */
module ResetSafety {
  import opened CryptoFunctions
  import opened ResetProtocol
  import opened Sets
  import opened Wrappers

  // How many requests can be pending for one address.

  ghost function Pending(s: State, email: string): set<nat> {
    set i | i in s.resets && s.resets[i].email == email
  }

  /** The recoveries for an address that have deleted but not yet inserted. */
  ghost function InGap(s: State, email: string): set<CallId> {
    set c | c in s.calls && s.calls[c].RecoveryCleared? && s.calls[c].email == email
  }

  lemma {:induction false} ClearStep(crypto: Crypto, s: State, c: CallId, action: Action, email: string,
      cleared: string)
    requires action.ClearResets? || action.ConsumeResets?
    requires Enabled(crypto, s, Step(c, action))
    requires cleared == if action.ClearResets? then s.calls[c].email else s.calls[c].row.email
    ensures var s' := Next(crypto, s, Step(c, action));
            if cleared == email then Pending(s', email) == {}
            else Pending(s', email) == Pending(s, email) && InGap(s', email) == InGap(s, email)
  {
  }

  lemma {:induction false} StoreStep(crypto: Crypto, s: State, c: CallId, token: string, rowId: nat, email: string)
    requires Enabled(crypto, s, Step(c, StoreReset(token, rowId)))
    ensures var s' := Next(crypto, s, Step(c, StoreReset(token, rowId)));
            if s.calls[c].email == email
            then Pending(s', email) == Pending(s, email) + {rowId} && InGap(s', email) == InGap(s, email) - {c}
            else Pending(s', email) == Pending(s, email) && InGap(s', email) == InGap(s, email)
  {
  }

  lemma {:induction false} OtherStep(crypto: Crypto, s: State, event: Event, email: string)
    requires Enabled(crypto, s, event)
    requires event.Step? ==> !event.action.ClearResets? && !event.action.ConsumeResets? && !event.action.StoreReset?
    ensures var s' := Next(crypto, s, event);
            Pending(s', email) == Pending(s, email) && InGap(s', email) <= InGap(s, email)
  {
  }

  lemma {:induction false} PendingStep(crypto: Crypto, s: State, event: Event, email: string)
    requires Enabled(crypto, s, event)
    ensures var s' := Next(crypto, s, event);
            |Pending(s', email)| + |InGap(s', email)| <= |Pending(s, email)| + |InGap(s, email)|
            || Pending(s', email) == {}
  {
    match event {
      case Step(c, StoreReset(token, rowId)) => StoreStep(crypto, s, c, token, rowId, email);
      case Step(c, ClearResets) => ClearStep(crypto, s, c, ClearResets, email, s.calls[c].email);
      case Step(c, ConsumeResets) => ClearStep(crypto, s, c, ConsumeResets, email, s.calls[c].row.email);
      case _ =>
        OtherStep(crypto, s, event, email);
        SubsetSize(InGap(Next(crypto, s, event), email), InGap(s, email));
    }
  }

  /** In every interleaving: if at most k recoveries for an address are ever between their delete and
      their insert, then pending rows and such recoveries together never exceed k. */
  lemma {:induction false} PendingBound(crypto: Crypto, run: Run, email: string, k: nat, n: nat)
    requires ValidRun(crypto, run) && n < |run.states|
    requires forall i | 0 <= i < |run.states| :: |InGap(run.states[i], email)| <= k
    ensures |Pending(run.states[n], email)| + |InGap(run.states[n], email)| <= k
  {
    if n == 0 {
      assert Pending(run.states[0], email) == {};
    } else {
      PendingBound(crypto, run, email, k, n - 1);
      assert StepAt(crypto, run, n - 1);
      PendingStep(crypto, run.states[n - 1], run.events[n - 1], email);
    }
  }

  /** Only one pending request per address is kept, when calls run one at a time. */
  lemma {:induction false} OnePendingWhenSequential(crypto: Crypto, run: Run, email: string, n: nat)
    requires ValidRun(crypto, run) && Sequential(run) && n < |run.states|
    ensures |Pending(run.states[n], email)| <= 1
  {
    forall i | 0 <= i < |run.states| ensures |InGap(run.states[i], email)| <= 1 {
      var gap := InGap(run.states[i], email);
      assert OneInProgress(run.states[i]);
      if c :| c in gap {
        assert gap == {c};
      }
    }
    PendingBound(crypto, run, email, 1, n);
  }

  // The bound is reached for every k: k overlapping recoveries, each with a token of its own, leave k live
  // rows.

  /** No token was stored twice, and only these were. */
  ghost predicate StoresOnly(run: Run, tokens: seq<string>) {
    && FreshTokens(run)
    && forall i | 0 <= i < |run.events| && run.events[i].Step? && run.events[i].action.StoreReset? ::
         run.events[i].action.token in tokens
  }

  lemma {:induction false} ExtendStoresNothing(crypto: Crypto, run: Run, event: Event, tokens: seq<string>)
    requires |run.states| > 0 && Enabled(crypto, Last(run), event) && StoresOnly(run, tokens)
    requires event.Step? ==> !event.action.StoreReset?
    ensures StoresOnly(Extend(crypto, run, event), tokens)
  {
  }

  lemma {:induction false} ExtendStoresOne(crypto: Crypto, run: Run, c: CallId, token: string, rowId: nat,
                                           tokens: seq<string>)
    requires |run.states| > 0 && Enabled(crypto, Last(run), Step(c, StoreReset(token, rowId)))
    requires StoresOnly(run, tokens) && token !in tokens
    ensures StoresOnly(Extend(crypto, run, Step(c, StoreReset(token, rowId))), tokens + [token])
  {
  }

  predicate Distinct(tokens: seq<string>) {
    forall i, j | 0 <= i < j < |tokens| :: tokens[i] != tokens[j]
  }

  ghost function Range(lo: nat, hi: nat): (r: set<nat>)
    requires lo <= hi
    ensures |r| == hi - lo
    ensures forall i: nat :: i in r <==> lo <= i < hi
  {
    if lo == hi then {} else Range(lo, hi - 1) + {hi - 1}
  }

  ghost predicate Overlapping(s: State, s0: State, email: string, id: Uuid, stored: nat, cleared: nat)
    requires id in s0.users
  {
    && stored <= cleared
    && s.users == s0.users
    && Pending(s, email) == Range(0, stored)
    && s.resets.Keys == Range(0, stored)
    && (forall c: nat :: c in s.calls <==> c < cleared)
    && (forall c: nat | c < stored :: s.calls[c].RecoveryStored?)
    && forall c: nat | stored <= c < cleared :: s.calls[c] == RecoveryCleared(email, s0.users[id])
  }

  ghost predicate GapAtMost(run: Run, email: string, k: nat) {
    forall i | 0 <= i < |run.states| :: |InGap(run.states[i], email)| <= k
  }

  lemma {:induction false} GapIsRange(s: State, s0: State, email: string, id: Uuid, stored: nat, cleared: nat)
    requires id in s0.users && Overlapping(s, s0, email, id, stored, cleared)
    ensures |InGap(s, email)| == cleared - stored
  {
    assert InGap(s, email) == Range(stored, cleared);
  }

  lemma {:induction false} ExtendKeepsGap(crypto: Crypto, run: Run, event: Event, email: string, k: nat)
    requires ValidRun(crypto, run) && Enabled(crypto, Last(run), event) && GapAtMost(run, email, k)
    requires |InGap(Next(crypto, Last(run), event), email)| <= k
    ensures ValidRun(crypto, Extend(crypto, run, event)) && GapAtMost(Extend(crypto, run, event), email, k)
    ensures Last(Extend(crypto, run, event)) == Next(crypto, Last(run), event)
  {
    ExtendIsValid(crypto, run, event);
  }

  /** Before its delete, a recovery changes nothing that the bound speaks of. */
  lemma {:induction false} OpeningStep(crypto: Crypto, s: State, c: CallId, action: Action, email: string)
    requires action.StartRecovery? || action.FindUser?
    requires Enabled(crypto, s, Step(c, action))
    ensures var s' := Next(crypto, s, Step(c, action));
            && InGap(s', email) == InGap(s, email) && Pending(s', email) == Pending(s, email)
            && s'.calls == s.calls[c := s'.calls[c]] && s'.resets == s.resets && s'.users == s.users
  {
  }

  lemma {:induction false} EmptyTableStep(crypto: Crypto, s: State, c: CallId, email: string)
    requires Enabled(crypto, s, Step(c, ClearResets)) && s.calls[c].email == email && s.resets == map[]
    ensures var s' := Next(crypto, s, Step(c, ClearResets));
            && InGap(s', email) == InGap(s, email) + {c} && s'.resets == map[] && s'.users == s.users
            && s'.calls == s.calls[c := RecoveryCleared(email, s.calls[c].user)]
  {
  }

  /** One more recovery, up to and including its delete. */
  lemma {:induction false} ClearOne(crypto: Crypto, run: Run, s0: State, email: string, id: Uuid, c: CallId,
      k: nat) returns (run': Run)
    requires ValidRun(crypto, run) && GapAtMost(run, email, k) && c < k && StoresOnly(run, [])
    requires id in s0.users && s0.users[id].email == email && Overlapping(Last(run), s0, email, id, 0, c)
    ensures ValidRun(crypto, run') && GapAtMost(run', email, k) && run'.states[0] == run.states[0]
    ensures Overlapping(Last(run'), s0, email, id, 0, c + 1) && StoresOnly(run', [])
  {
    GapIsRange(Last(run), s0, email, id, 0, c);
    OpeningStep(crypto, Last(run), c, StartRecovery(email), email);
    ExtendKeepsGap(crypto, run, Step(c, StartRecovery(email)), email, k);
    ExtendStoresNothing(crypto, run, Step(c, StartRecovery(email)), []);
    run' := Extend(crypto, run, Step(c, StartRecovery(email)));
    OpeningStep(crypto, Last(run'), c, FindUser(id), email);
    ExtendKeepsGap(crypto, run', Step(c, FindUser(id)), email, k);
    ExtendStoresNothing(crypto, run', Step(c, FindUser(id)), []);
    run' := Extend(crypto, run', Step(c, FindUser(id)));
    EmptyTableStep(crypto, Last(run'), c, email);
    ExtendKeepsGap(crypto, run', Step(c, ClearResets), email, k);
    ExtendStoresNothing(crypto, run', Step(c, ClearResets), []);
    run' := Extend(crypto, run', Step(c, ClearResets));
  }

  /** The first phase: recoveries 0..k find their user and delete, none inserts yet. */
  lemma {:induction false} ClearMany(crypto: Crypto, s0: State, email: string, id: Uuid, k: nat, cleared: nat)
    returns (run: Run)
    requires s0.calls == map[] && s0.resets == map[] && id in s0.users && s0.users[id].email == email
    requires cleared <= k
    ensures ValidRun(crypto, run) && GapAtMost(run, email, k) && run.states[0] == s0
    ensures Overlapping(Last(run), s0, email, id, 0, cleared) && StoresOnly(run, [])
  {
    if cleared == 0 {
      run := Run([s0], []);
      assert InGap(s0, email) == {};
    } else {
      run := ClearMany(crypto, s0, email, id, k, cleared - 1);
      run := ClearOne(crypto, run, s0, email, id, cleared - 1, k);
    }
  }

  lemma {:induction false} StoreOne(crypto: Crypto, s: State, s0: State, email: string, id: Uuid, c: CallId, k: nat,
                                    token: string)
    requires id in s0.users && c < k && Overlapping(s, s0, email, id, c, k)
    ensures Enabled(crypto, s, Step(c, StoreReset(token, c)))
    ensures Overlapping(Next(crypto, s, Step(c, StoreReset(token, c))), s0, email, id, c + 1, k)
  {
    assert s.calls[c] == RecoveryCleared(email, s0.users[id]);
    StoreStep(crypto, s, c, token, c, email);
    assert Range(0, c + 1) == Range(0, c) + {c};
  }

  lemma {:induction false} OneMoreToken(tokens: seq<string>, c: nat)
    requires Distinct(tokens) && c < |tokens|
    ensures tokens[c] !in tokens[..c] && tokens[..c + 1] == tokens[..c] + [tokens[c]]
  {
  }

  lemma {:induction false} StoreNext(crypto: Crypto, run: Run, s0: State, email: string, id: Uuid, k: nat, c: CallId,
                                     token: string, tokens: seq<string>) returns (run': Run)
    requires ValidRun(crypto, run) && GapAtMost(run, email, k) && StoresOnly(run, tokens) && token !in tokens
    requires id in s0.users && c < k && Overlapping(Last(run), s0, email, id, c, k)
    ensures ValidRun(crypto, run') && GapAtMost(run', email, k) && run'.states[0] == run.states[0]
    ensures Overlapping(Last(run'), s0, email, id, c + 1, k) && StoresOnly(run', tokens + [token])
  {
    var event := Step(c, StoreReset(token, c));
    StoreOne(crypto, Last(run), s0, email, id, c, k, token);
    GapIsRange(Next(crypto, Last(run), event), s0, email, id, c + 1, k);
    ExtendKeepsGap(crypto, run, event, email, k);
    ExtendStoresOne(crypto, run, c, token, c, tokens);
    run' := Extend(crypto, run, event);
  }

  /** The second phase: the first `stored` recoveries insert their row, one for each token. */
  lemma {:induction false} StoreMany(crypto: Crypto, s0: State, email: string, id: Uuid, tokens: seq<string>,
      stored: nat)
    returns (run: Run)
    requires s0.calls == map[] && s0.resets == map[] && id in s0.users && s0.users[id].email == email
    requires Distinct(tokens) && stored <= |tokens|
    ensures ValidRun(crypto, run) && GapAtMost(run, email, |tokens|) && run.states[0] == s0
    ensures Overlapping(Last(run), s0, email, id, stored, |tokens|) && StoresOnly(run, tokens[..stored])
  {
    if stored == 0 {
      run := ClearMany(crypto, s0, email, id, |tokens|, |tokens|);
    } else {
      var c := stored - 1;
      var earlier := StoreMany(crypto, s0, email, id, tokens, c);
      OneMoreToken(tokens, c);
      run := StoreNext(crypto, earlier, s0, email, id, |tokens|, c, tokens[c], tokens[..c]);
    }
  }

  /** The bound of PendingBound is exact: for any k different tokens and every registered address there is a
      run that keeps its premise, stores each token once and ends with k pending rows. In particular two
      overlapping recoveries leave two, so "one pending request per address" is false of the code when calls
      overlap. */
  lemma {:induction false} PendingBoundIsReached(crypto: Crypto, s0: State, email: string, id: Uuid,
                                                 tokens: seq<string>) returns (run: Run)
    requires s0.calls == map[] && s0.resets == map[] && id in s0.users && s0.users[id].email == email
    requires Distinct(tokens)
    ensures ValidRun(crypto, run) && FreshTokens(run) && run.states[0] == s0
    ensures GapAtMost(run, email, |tokens|)
    ensures |Pending(Last(run), email)| == |tokens|
  {
    run := StoreMany(crypto, s0, email, id, tokens, |tokens|);
  }

  /** Both halves: from any users table with this address, m bounds its pending rows in every run with fresh
      tokens in which at most k recoveries for it are ever between delete and insert, if and only if k is at
      most m. */
  lemma {:induction false} PendingAtMostIff(crypto: Crypto, s0: State, email: string, id: Uuid,
      tokens: seq<string>, m: nat)
    requires s0.calls == map[] && s0.resets == map[] && id in s0.users && s0.users[id].email == email
    requires Distinct(tokens)
    ensures (forall run |
               ValidRun(crypto, run) && FreshTokens(run) && run.states[0] == s0 && GapAtMost(run, email, |tokens|) ::
               |Pending(Last(run), email)| <= m)
            <==> |tokens| <= m
  {
    if |tokens| <= m {
      forall run | ValidRun(crypto, run) && GapAtMost(run, email, |tokens|) ensures |Pending(Last(run), email)| <= m {
        PendingBound(crypto, run, email, |tokens|, |run.states| - 1);
      }
    } else {
      var run := PendingBoundIsReached(crypto, s0, email, id, tokens);
    }
  }

  // Where rows and calls come from.

  /** Event i inserts a row, for this address. */
  ghost predicate StoredFor(run: Run, i: nat, email: string)
    requires i < |run.events| && |run.states| == |run.events| + 1
  {
    && run.events[i].Step? && run.events[i].action.StoreReset?
    && run.events[i].call in run.states[i].calls
    && run.states[i].calls[run.events[i].call].RecoveryCleared?
    && run.states[i].calls[run.events[i].call].email == email
  }

  /** Every pending row was inserted by a recovery for its address, whose token it is the digest of. */
  lemma {:induction false} RowOrigin(crypto: Crypto, run: Run, n: nat, rowId: nat) returns (i: nat, token: string)
    requires ValidRun(crypto, run) && n < |run.states| && rowId in run.states[n].resets
    ensures i < n && StoresToken(run.events[i], token)
    ensures var row := run.states[n].resets[rowId];
            row.token == crypto.digest(token) && StoredFor(run, i, row.email) && row.createdAt == run.states[i].now
  {
    assert StepAt(crypto, run, n - 1);
    var event := run.events[n - 1];
    if event.Step? && event.action.StoreReset? && event.action.rowId == rowId {
      i, token := n - 1, event.action.token;
    } else {
      i, token := RowOrigin(crypto, run, n - 1, rowId);
    }
  }

  /** A call comes about and changes only by a step of its own. */
  lemma {:induction false} OnlyItsOwnSteps(crypto: Crypto, run: Run, i: nat, c: CallId)
    requires ValidRun(crypto, run) && i < |run.events|
    ensures c in run.states[i].calls ==> c in run.states[i + 1].calls
    ensures c in run.states[i + 1].calls ==>
              var event := run.events[i];
              if event.Step? && event.call == c then
                Enabled(crypto, run.states[i], event)
                && run.states[i + 1].calls[c] == Advance(crypto, run.states[i], c, event.action)
              else c in run.states[i].calls && run.states[i + 1].calls[c] == run.states[i].calls[c]
  {
    assert StepAt(crypto, run, i);
  }

  predicate HoldsRow(call: Call) {
    call.ResetFound? || call.ResetChecked? || call.ResetWritten? || call.ResetFinished?
  }

  /** Event f is the successful find of reset call c, for this token, and it returned this row. */
  ghost predicate FindsRow(run: Run, f: nat, c: CallId, token: string, row: PasswordReset)
    requires f < |run.events| && |run.states| == |run.events| + 1
  {
    && run.events[f].Step? && run.events[f].call == c && run.events[f].action.FindReset?
    && run.events[f].action.rowId in run.states[f].resets
    && run.states[f].resets[run.events[f].action.rowId] == row
    && c in run.states[f].calls && run.states[f].calls[c].ResetStarted?
    && run.states[f].calls[c].token == token
  }

  lemma {:induction false} RowComesFromAFind(crypto: Crypto, run: Run, n: nat, c: CallId)
    requires ValidRun(crypto, run) && n < |run.states| && c in run.states[n].calls
    requires HoldsRow(run.states[n].calls[c])
    ensures n > 0
    ensures var call, event, before := run.states[n].calls[c], run.events[n - 1], run.states[n - 1].calls;
            if event.Step? && event.call == c && event.action.FindReset? then
              FindsRow(run, n - 1, c, call.token, call.row) && call.row.token == crypto.digest(call.token)
            else
              c in before && HoldsRow(before[c]) && before[c].token == call.token && before[c].row == call.row
  {
    OnlyItsOwnSteps(crypto, run, n - 1, c);
  }

  /** A reset call past its find read a row of the table that carries the digest of its token. */
  lemma {:induction false} FindOrigin(crypto: Crypto, run: Run, n: nat, c: CallId) returns (f: nat)
    requires ValidRun(crypto, run) && n < |run.states| && c in run.states[n].calls
    requires HoldsRow(run.states[n].calls[c])
    ensures f < n && FindsRow(run, f, c, run.states[n].calls[c].token, run.states[n].calls[c].row)
    ensures run.states[n].calls[c].row.token == crypto.digest(run.states[n].calls[c].token)
    ensures forall m | f < m <= n ::
      c in run.states[m].calls && HoldsRow(run.states[m].calls[c])
      && run.states[m].calls[c].token == run.states[n].calls[c].token
      && run.states[m].calls[c].row == run.states[n].calls[c].row
  {
    RowComesFromAFind(crypto, run, n, c);
    var event := run.events[n - 1];
    if event.Step? && event.call == c && event.action.FindReset? {
      f := n - 1;
    } else {
      f := FindOrigin(crypto, run, n - 1, c);
    }
  }

  /** A reset call past its age check passed it, on the row it had read. */
  lemma {:induction false} CheckOrigin(crypto: Crypto, run: Run, n: nat, c: CallId) returns (a: nat)
    requires ValidRun(crypto, run) && n < |run.states| && c in run.states[n].calls
    requires run.states[n].calls[c].ResetChecked? || run.states[n].calls[c].ResetWritten?
    ensures a < n && run.events[a] == Step(c, AcceptAge)
    ensures c in run.states[a].calls && run.states[a].calls[c].ResetFound?
    ensures run.states[a].calls[c].row == run.states[n].calls[c].row
    ensures run.states[a].now <= run.states[n].calls[c].row.createdAt + 15 * 60 * 1_000_000
  {
    assert StepAt(crypto, run, n - 1);
    if run.events[n - 1] == Step(c, AcceptAge) {
      a := n - 1;
    } else {
      a := CheckOrigin(crypto, run, n - 1, c);
    }
  }

  /** Event k writes the password of some address, on behalf of a reset call that holds this token. */
  ghost predicate WritesPassword(run: Run, k: nat, c: CallId, token: string, email: string)
    requires k < |run.events| && |run.states| == |run.events| + 1
  {
    && run.events[k].Step? && run.events[k].call == c && run.events[k].action.WritePassword?
    && c in run.states[k].calls && run.states[k].calls[c].ResetChecked?
    && run.states[k].calls[c].token == token && run.states[k].calls[c].row.email == email
  }

  lemma {:induction false} NoCheckBeforeFind(crypto: Crypto, run: Run, a: nat, f: nat, c: CallId)
    requires ValidRun(crypto, run) && a <= f < |run.events|
    requires c in run.states[a].calls && run.states[a].calls[c].ResetFound?
    ensures c in run.states[f].calls && !run.states[f].calls[c].ResetStarted?
  {
    if a < f {
      NoCheckBeforeFind(crypto, run, a, f - 1, c);
      assert StepAt(crypto, run, f - 1);
    }
  }

  /** In every interleaving, a password is written only for a token that a recovery for that very
      address had stored, by a call that saw the row and found it no older than fifteen minutes. */
  lemma {:induction false} WritesAreAuthorised(crypto: Crypto, run: Run, k: nat, c: CallId, token: string,
      email: string)
    returns (i: nat, f: nat, a: nat)
    requires ValidRun(crypto, run) && InjectiveDigest(crypto) && k < |run.events|
    requires WritesPassword(run, k, c, token, email)
    ensures i < f < a < k
    ensures StoresToken(run.events[i], token) && StoredFor(run, i, email)
    ensures FindsRow(run, f, c, token, run.states[k].calls[c].row)
    ensures run.events[a] == Step(c, AcceptAge) && run.states[a].now <= run.states[i].now + 15 * 60 * 1_000_000
  {
    a := CheckOrigin(crypto, run, k, c);
    f := FindOrigin(crypto, run, k, c);
    if a <= f {
      assert StepAt(crypto, run, a);
      NoCheckBeforeFind(crypto, run, a, f, c);
    }
    var stored;
    i, stored := RowOrigin(crypto, run, f, run.events[f].action.rowId);
    assert crypto.digest(stored) == crypto.digest(token);
  }
}
