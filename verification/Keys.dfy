/** A generated key can always be new. */
module Keys {
  lemma {:induction false} FreshAbove(keys: set<nat>) returns (k: nat)
    ensures forall i | i in keys :: i < k
  {
    if i :| i in keys {
      var rest := FreshAbove(keys - {i});
      k := if i < rest then rest else i + 1;
      forall j | j in keys ensures j < k {
        assert j == i || j in keys - {i};
      }
    } else {
      k := 0;
    }
  }

  lemma {:induction false} FreshKey<T>(m: map<nat, T>) returns (k: nat)
    ensures k !in m
  {
    k := FreshAbove(m.Keys);
  }
}
