/** How many requests are pending for an address, exactly, in every run of the reset protocol. */
module PendingRows {
  import opened CryptoFunctions
  import opened ResetProtocol
  import opened ResetSafety
  import opened ResetTokens

  /** The inserts for an address among the first n events, after the last delete for it. */
  ghost function StoresSinceDelete(run: Run, n: nat, email: string): nat
    requires n <= |run.events| && |run.states| == |run.events| + 1
  {
    if n == 0 || DeletesFor(run, n - 1, email) then 0
    else StoresSinceDelete(run, n - 1, email) + if StoredFor(run, n - 1, email) then 1 else 0
  }

  lemma {:induction false} PendingAfterStep(crypto: Crypto, run: Run, i: nat, email: string)
    requires ValidRun(crypto, run) && i < |run.events|
    ensures |Pending(run.states[i + 1], email)| ==
            if DeletesFor(run, i, email) then 0
            else |Pending(run.states[i], email)| + if StoredFor(run, i, email) then 1 else 0
  {
    assert StepAt(crypto, run, i);
    var s := run.states[i];
    match run.events[i] {
      case Step(c, StoreReset(token, rowId)) => StoreStep(crypto, s, c, token, rowId, email);
      case Step(c, ClearResets) => ClearStep(crypto, s, c, ClearResets, email, s.calls[c].email);
      case Step(c, ConsumeResets) => ClearStep(crypto, s, c, ConsumeResets, email, s.calls[c].row.email);
      case event => OtherStep(crypto, s, event, email);
    }
  }

  /** In every run, the rows pending for an address are as many as were inserted for it since the last delete
      for it. */
  lemma {:induction false} PendingIsStoresSinceDelete(crypto: Crypto, run: Run, n: nat, email: string)
    requires ValidRun(crypto, run) && n <= |run.events|
    ensures |Pending(run.states[n], email)| == StoresSinceDelete(run, n, email)
  {
    if n == 0 {
      assert Pending(run.states[0], email) == {};
    } else {
      PendingIsStoresSinceDelete(crypto, run, n - 1, email);
      PendingAfterStep(crypto, run, n - 1, email);
    }
  }

  /** Two inserts for the address with no delete for it between them. */
  ghost predicate StoredTwice(run: Run, i: nat, j: nat, email: string)
    requires |run.states| == |run.events| + 1
  {
    i < j < |run.events| && StoredFor(run, i, email) && StoredFor(run, j, email)
    && forall d | i < d < j :: !DeletesFor(run, d, email)
  }

  lemma {:induction false} LastStore(run: Run, n: nat, email: string) returns (i: nat)
    requires n <= |run.events| && |run.states| == |run.events| + 1 && StoresSinceDelete(run, n, email) >= 1
    ensures i < n && StoredFor(run, i, email) && forall d | i < d < n :: !DeletesFor(run, d, email)
  {
    if StoredFor(run, n - 1, email) {
      i := n - 1;
    } else {
      i := LastStore(run, n - 1, email);
    }
  }

  lemma {:induction false} LastTwoStores(run: Run, n: nat, email: string) returns (i: nat, j: nat)
    requires n <= |run.events| && |run.states| == |run.events| + 1 && StoresSinceDelete(run, n, email) >= 2
    ensures StoredTwice(run, i, j, email)
  {
    if StoredFor(run, n - 1, email) {
      j := n - 1;
      i := LastStore(run, n - 1, email);
    } else {
      i, j := LastTwoStores(run, n - 1, email);
    }
  }

  lemma {:induction false} StoreStillCounts(run: Run, i: nat, n: nat, email: string)
    requires i < n <= |run.events| && |run.states| == |run.events| + 1 && StoredFor(run, i, email)
    requires forall d | i < d < n :: !DeletesFor(run, d, email)
    ensures StoresSinceDelete(run, n, email) >= 1
  {
    if i + 1 < n {
      StoreStillCounts(run, i, n - 1, email);
    }
  }

  /** "Only one pending request per address is kept" holds throughout a run exactly when no two inserts for the
      address follow each other without a delete for it between them. */
  lemma {:induction false} AtMostOnePendingIff(crypto: Crypto, run: Run, email: string)
    requires ValidRun(crypto, run)
    ensures (forall n: nat | n < |run.states| :: |Pending(run.states[n], email)| <= 1)
            <==> forall i: nat, j: nat :: !StoredTwice(run, i, j, email)
  {
    if i: nat, j: nat :| StoredTwice(run, i, j, email) {
      StoreStillCounts(run, i, j, email);
      assert StoresSinceDelete(run, j + 1, email) >= 2;
      PendingIsStoresSinceDelete(crypto, run, j + 1, email);
    }
    if n: nat :| n < |run.states| && |Pending(run.states[n], email)| > 1 {
      PendingIsStoresSinceDelete(crypto, run, n, email);
      var i, j := LastTwoStores(run, n, email);
    }
  }
}
