/**
 Interest configuration and the capped-growth rule shared by the scheduled
 interest job and the account service.

 An account is eligible while its balance is strictly below its ceiling
 `initialDeposit * maxMultiplier`; one accrual multiplies the balance by
 `rate` and clips the result to the ceiling.
 */
module InterestPolicy {
  import opened Ledger

  /** The `bank.interest` configuration properties. */
  datatype Config = Config(rate: real, maxMultiplier: real, scheduleMs: int, enabled: bool)

  /** The bounds the configuration is validated against at start-up. */
  predicate Valid(c: Config) {
    c.rate >= 1.01 && c.maxMultiplier >= 1.01 && c.scheduleMs >= 1000
  }

  /** The configuration used when no property is set. */
  function DefaultConfig(): (c: Config)
    ensures Valid(c) && c.enabled
    ensures c.rate == 1.10 && c.maxMultiplier == 2.07 && c.scheduleMs == 30000
  {
    Config(1.10, 2.07, 30000, true)
  }

  /** The accrual ceiling of an account. */
  function Cap(a: Account, c: Config): real {
    a.initialDeposit * c.maxMultiplier
  }

  /** The ceiling depends on the initial deposit only. */
  lemma SameDepositSameCap(a: Account, b: Account, c: Config)
    requires a.initialDeposit == b.initialDeposit
    ensures Cap(a, c) == Cap(b, c)
  {
  }

  /** The repository's eligibility query: balance strictly below the ceiling. */
  predicate Eligible(a: Account, c: Config) {
    a.balance < Cap(a, c)
  }

  /** Owners of the accounts the eligibility query returns. */
  function EligibleOwners(m: Accounts, c: Config): set<int> {
    set o | o in m && Eligible(m[o], c)
  }

  /** One accrual step: `min(balance * rate, ceiling)`. */
  function Grow(a: Account, c: Config): (b: Account)
    ensures b.initialDeposit == a.initialDeposit
    ensures b.balance <= Cap(a, c)
    ensures b.balance <= a.balance * c.rate
    ensures b.balance == Cap(a, c) || b.balance == a.balance * c.rate
  {
    var grown := a.balance * c.rate;
    var ceiling := Cap(a, c);
    a.(balance := if grown <= ceiling then grown else ceiling)
  }

  /** The ledger after one accrual pass: eligible accounts grow, the others stay. */
  function Accrued(m: Accounts, c: Config): (r: Accounts)
    ensures r.Keys == m.Keys
    ensures forall o :: o in m ==> r[o].initialDeposit == m[o].initialDeposit
    ensures forall o :: o in m && !Eligible(m[o], c) ==> r[o] == m[o]
    ensures forall o :: o in m && Eligible(m[o], c) ==> r[o].balance <= Cap(m[o], c)
  {
    map o | o in m :: if Eligible(m[o], c) then Grow(m[o], c) else m[o]
  }

  /** With a valid rate, an eligible non-negative balance never decreases and stays non-negative. */
  lemma GrowNeverDecreases(a: Account, c: Config)
    requires Valid(c)
    requires a.balance >= 0.0
    requires Eligible(a, c)
    ensures Grow(a, c).balance >= a.balance
  {
  }

  /** With a valid rate, an eligible balance stays unchanged exactly when it is zero. */
  lemma GrowChangesPositive(a: Account, c: Config)
    requires Valid(c)
    requires a.balance >= 0.0
    requires Eligible(a, c)
    ensures Grow(a, c).balance != a.balance <==> a.balance > 0.0
  {
  }

  /** `n` consecutive accrual passes. */
  function AccrueTimes(m: Accounts, c: Config, n: nat): (r: Accounts)
    ensures r.Keys == m.Keys
    decreases n
  {
    if n == 0 then m else Accrued(AccrueTimes(m, c, n - 1), c)
  }

  /** Larger of two reals. */
  function Max(x: real, y: real): real {
    if x >= y then x else y
  }

  /** Repeated passes never change an account's initial deposit, hence its ceiling. */
  lemma {:induction false} RepeatedAccrualKeepsDeposit(m: Accounts, c: Config, n: nat, o: int)
    requires o in m
    ensures AccrueTimes(m, c, n)[o].initialDeposit == m[o].initialDeposit
    decreases n
  {
    if n > 0 {
      RepeatedAccrualKeepsDeposit(m, c, n - 1, o);
    }
  }

  /** An account at or above its ceiling is never touched by any number of passes. */
  lemma {:induction false} RepeatedAccrualFixesCapped(m: Accounts, c: Config, n: nat, o: int)
    requires o in m && !Eligible(m[o], c)
    ensures AccrueTimes(m, c, n)[o] == m[o]
    decreases n
  {
    if n > 0 {
      RepeatedAccrualFixesCapped(m, c, n - 1, o);
    }
  }

  /**
   However many passes run, a balance ends no higher than the larger of its
   starting value and its ceiling.
   */
  lemma {:induction false} RepeatedAccrualBounded(m: Accounts, c: Config, n: nat, o: int)
    requires o in m
    ensures AccrueTimes(m, c, n)[o].balance <= Max(m[o].balance, Cap(m[o], c))
    decreases n
  {
    if n > 0 {
      RepeatedAccrualBounded(m, c, n - 1, o);
      RepeatedAccrualKeepsDeposit(m, c, n - 1, o);
      var prev := AccrueTimes(m, c, n - 1);
      var bound := Max(m[o].balance, Cap(m[o], c));
      assert prev[o].balance <= bound;
      SameDepositSameCap(prev[o], m[o], c);
      assert AccrueTimes(m, c, n) == Accrued(prev, c);
      if Eligible(prev[o], c) {
        assert Accrued(prev, c)[o].balance <= Cap(prev[o], c);
      } else {
        assert Accrued(prev, c)[o] == prev[o];
      }
    }
  }

  /** With a valid configuration, repeated passes never lower a non-negative balance. */
  lemma {:induction false} RepeatedAccrualMonotone(m: Accounts, c: Config, n: nat, o: int)
    requires Valid(c)
    requires o in m && m[o].balance >= 0.0
    ensures AccrueTimes(m, c, n)[o].balance >= m[o].balance
    decreases n
  {
    if n > 0 {
      RepeatedAccrualMonotone(m, c, n - 1, o);
      var prev := AccrueTimes(m, c, n - 1);
      if Eligible(prev[o], c) {
        GrowNeverDecreases(prev[o], c);
      }
    }
  }
}
