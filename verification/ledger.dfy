/**
 The accounts table. Every user owns at most one account, so the table is a
 map from the owner's user id to the account's monetary state. Balances are
 exact decimals (`real`); the database's two-digit scale is not modelled.
 */
module Ledger {
  import opened Errors

  datatype Account = Account(balance: real, initialDeposit: real)

  /** Accounts keyed by the owning user's id. */
  type Accounts = map<int, Account>

  /** The entity's bean-validation bounds on the balance. */
  predicate NonNegative(m: Accounts) {
    forall o :: o in m ==> m[o].balance >= 0.0
  }

  /** `findByUserIdWithLock`: the owner's account, or nothing (row locking is not modelled). */
  function FindByUserId(m: Accounts, userId: int): (r: Option<Account>)
    ensures r.Some? <==> userId in m
    ensures r.Some? ==> r.value == m[userId]
  {
    if userId in m then Some(m[userId]) else None
  }

  /** A non-empty set of owners has a member to pick. */
  lemma NonEmptyHasMember(keys: set<int>)
    ensures keys != {} ==> exists o :: o in keys
  {
    if forall o :: o !in keys {
      assert keys == {};
    }
  }

  /** Sum of the balances of the accounts owned by `keys`. */
  ghost function SumOver(m: Accounts, keys: set<int>): real
    requires keys <= m.Keys
    decreases keys
  {
    if keys == {} then 0.0
    else
      NonEmptyHasMember(keys);
      var o :| o in keys;
      m[o].balance + SumOver(m, keys - {o})
  }

  /** The money held by the whole ledger. */
  ghost function Total(m: Accounts): real {
    SumOver(m, m.Keys)
  }

  /** Any owner can be taken out of the sum first. */
  lemma {:induction false} SumOverRemove(m: Accounts, keys: set<int>, k: int)
    requires keys <= m.Keys && k in keys
    ensures SumOver(m, keys) == m[k].balance + SumOver(m, keys - {k})
    decreases keys
  {
    var o :| o in keys && SumOver(m, keys) == m[o].balance + SumOver(m, keys - {o});
    if o != k {
      SumOverRemove(m, keys - {o}, k);
      SumOverRemove(m, keys - {k}, o);
      assert keys - {o} - {k} == keys - {k} - {o};
    }
  }

  /** Sums agree on ledgers whose balances agree on the summed owners. */
  lemma {:induction false} SumOverAgree(m: Accounts, m': Accounts, keys: set<int>)
    requires keys <= m.Keys && keys <= m'.Keys
    requires forall k :: k in keys ==> m[k].balance == m'[k].balance
    ensures SumOver(m, keys) == SumOver(m', keys)
    decreases keys
  {
    if keys != {} {
      NonEmptyHasMember(keys);
      var k :| k in keys;
      SumOverRemove(m, keys, k);
      SumOverRemove(m', keys, k);
      SumOverAgree(m, m', keys - {k});
    }
  }

  /** Replacing one account changes the total by exactly the change of its balance. */
  lemma TotalUpdate(m: Accounts, k: int, a: Account)
    requires k in m
    ensures Total(m[k := a]) == Total(m) - m[k].balance + a.balance
  {
    var m' := m[k := a];
    assert m'.Keys == m.Keys;
    SumOverRemove(m, m.Keys, k);
    SumOverRemove(m', m.Keys, k);
    SumOverAgree(m, m', m.Keys - {k});
  }

  /** Opening a new account adds exactly its balance to the total. */
  lemma TotalInsert(m: Accounts, k: int, a: Account)
    requires k !in m
    ensures Total(m[k := a]) == Total(m) + a.balance
  {
    var m' := m[k := a];
    SumOverRemove(m', m'.Keys, k);
    assert m'.Keys - {k} == m.Keys;
    SumOverAgree(m, m', m.Keys);
  }
}
