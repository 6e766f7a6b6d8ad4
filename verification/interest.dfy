/**
 The scheduled interest job. When enabled, it fetches the eligible accounts,
 grows each to `min(balance * rate, ceiling)`, saves every fetched account
 (changed or not) and then evicts the cached balance of every fetched
 account's owner. Without a cache manager eviction is skipped; a cache
 manager that has no balance cache makes the first eviction throw, after the
 accounts were already saved.
 */
module Interest {
  import opened Errors
  import opened Ledger
  import opened InterestPolicy

  /** What the cache manager offers the job. */
  datatype CacheSetup =
    | NoCacheManager     // the manager is null: eviction is skipped with a warning
    | NoBalanceCache     // the manager has no "accountBalance" cache: the lookup yields null
    | BalanceCache       // the "accountBalance" cache exists

  /** How the run ended, the ledger after it, the owners whose accounts were saved, and the evicted cache entries. */
  datatype Run = Run(outcome: Outcome, accounts: Accounts, saved: set<int>, evicted: set<int>)

  /** `interest` together with `invalidateBalanceCache`. */
  method RunInterest(m: Accounts, c: Config, cache: CacheSetup) returns (r: Run)
    ensures !c.enabled ==> r == Run(Pass, m, {}, {})
    ensures c.enabled ==> r.accounts == Accrued(m, c)
    ensures c.enabled ==> r.saved == EligibleOwners(m, c)
    ensures cache == BalanceCache ==> r.outcome == Pass && r.evicted == r.saved
    ensures cache == NoCacheManager ==> r.outcome == Pass && r.evicted == {}
    ensures cache == NoBalanceCache ==> r.evicted == {}
    ensures cache == NoBalanceCache ==> (r.outcome.Fail? <==> r.saved != {})
    ensures r.outcome.Fail? ==> r.outcome.error == NullReference
    ensures forall o :: o in m && !(o in r.saved) ==> r.accounts[o] == m[o]
  {
    if !c.enabled {
      return Run(Pass, m, {}, {});
    }
    var fetched := EligibleOwners(m, c);
    var todo := fetched;
    var accounts := m;
    var saved := {};
    while todo != {}
      invariant todo <= fetched
      invariant accounts.Keys == m.Keys
      invariant saved == fetched - todo
      invariant forall o :: o in m ==> accounts[o] == (if o in saved then Grow(m[o], c) else m[o])
      decreases todo
    {
      NonEmptyHasMember(todo);
      var o :| o in todo;
      accounts := accounts[o := Grow(accounts[o], c)];
      saved := saved + {o};
      todo := todo - {o};
    }
    assert saved == fetched;
    assert forall o :: o in m ==> accounts[o] == Accrued(m, c)[o];
    // The accounts are saved before the cache is touched, so a failing eviction keeps them.
    match cache
    case NoCacheManager =>
      r := Run(Pass, accounts, saved, {});
    case NoBalanceCache =>
      // Evicting through the missing cache throws on the first fetched account.
      var outcome := if saved == {} then Pass else Fail(NullReference);
      r := Run(outcome, accounts, saved, {});
    case BalanceCache =>
      r := Run(Pass, accounts, saved, saved);
  }

  /**
   After a run no account that was touched ends above its ceiling, and with a
   valid configuration no non-negative balance goes down.
   */
  lemma RunRespectsCeiling(m: Accounts, c: Config, o: int)
    requires o in m && Eligible(m[o], c)
    ensures Accrued(m, c)[o].balance <= Cap(m[o], c)
    ensures Valid(c) && m[o].balance >= 0.0 ==> Accrued(m, c)[o].balance >= m[o].balance
  {
  }
}
