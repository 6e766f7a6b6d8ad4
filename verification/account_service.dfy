/**
 The account service: account opening, the synchronous two-lock transfer and
 the service-side interest pass.

 A transfer validates its request, derives a lock pair ordered by owner id
 with one shared token, acquires the first then the second key, reads the
 sender then the receiver, checks funds and moves the amount; the two keys
 are released, second then first, on every path that got past validation.
 The calls made on the lock manager are recorded in order, so that the
 release discipline can be stated.
 */
module AccountService {
  import opened Errors
  import opened LongText
  import opened LockManager
  import opened Ledger
  import opened InterestPolicy

  /** Key prefix of the lock on the smaller owner id (note the spaces). */
  const FirstLockPrefix: string := "transfer - lock:"
  /** Key prefix of the lock on the larger owner id. */
  const SecondLockPrefix: string := "transfer-lock:"
  /** Expiry requested for both transfer locks. */
  const TransferLockTimeoutSeconds: nat := 10

  // ---------------------------------------------------------------- opening

  /** `createAccount`: a new account whose balance and initial deposit are the deposit. */
  function CreateAccount(m: Accounts, owner: int, initialDeposit: real): (r: Result<Accounts>)
    requires owner !in m
    ensures r.Err? <==> initialDeposit < 0.0
    ensures r.Err? ==> r.error == IllegalArgument(NegativeDeposit)
    ensures r.Ok? ==> r.value.Keys == m.Keys + {owner}
    ensures r.Ok? ==> r.value[owner].balance == initialDeposit
    ensures r.Ok? ==> r.value[owner].initialDeposit == initialDeposit
    ensures r.Ok? ==> forall o :: o in m ==> r.value[o] == m[o]
    ensures r.Ok? ==> Total(r.value) == Total(m) + initialDeposit
  {
    if initialDeposit < 0.0 then Err(IllegalArgument(NegativeDeposit))
    else
      var account := Account(initialDeposit, initialDeposit);
      TotalInsert(m, owner, account);
      Ok(m[owner := account])
  }

  // ------------------------------------------------------------- validation

  /** `validateTransferRequest`: the amount is checked first, then self-transfer. */
  function ValidateTransferRequest(from: int, to: int, amount: real): (r: Outcome)
    ensures r.Pass? <==> amount > 0.0 && from != to
    ensures amount <= 0.0 ==> r == Fail(IllegalArgument(NonPositiveAmount))
    ensures amount > 0.0 && from == to ==> r == Fail(IllegalArgument(SelfTransfer))
  {
    if amount <= 0.0 then Fail(IllegalArgument(NonPositiveAmount))
    else if from == to then Fail(IllegalArgument(SelfTransfer))
    else Pass
  }

  // -------------------------------------------------------------- lock pair

  datatype LockPair = LockPair(firstKey: string, secondKey: string, lockId: string)

  /** `Math.min` on owner ids. */
  function MinId(a: int, b: int): int {
    if a <= b then a else b
  }

  /** `Math.max` on owner ids. */
  function MaxId(a: int, b: int): int {
    if a <= b then b else a
  }

  /** `createLockPair`: keys for the smaller then the larger owner id, one token for both. */
  function CreateLockPair(from: int, to: int, token: string): (p: LockPair)
    ensures p.lockId == token
    ensures p.firstKey != p.secondKey
    ensures |p.firstKey| > |FirstLockPrefix| && p.firstKey[..|FirstLockPrefix|] == FirstLockPrefix
    ensures |p.secondKey| > |SecondLockPrefix| && p.secondKey[..|SecondLockPrefix|] == SecondLockPrefix
  {
    var p := LockPair(FirstLockPrefix + LongToString(MinId(from, to)),
                      SecondLockPrefix + LongToString(MaxId(from, to)), token);
    assert p.firstKey[8] == ' ' && p.secondKey[8] == '-';
    p
  }

  /** The owner id a lock key was built from. */
  function KeyOwner(key: string, prefix: string): int
    requires |key| > |prefix| && IsLongText(key[|prefix|..])
  {
    ParseLong(key[|prefix|..])
  }

  lemma KeySuffix(prefix: string, n: int)
    ensures (prefix + LongToString(n))[|prefix|..] == LongToString(n)
  {
  }

  /**
   The pair does not depend on the transfer's direction, and its first key
   names the smaller owner id, its second key the larger one.
   */
  lemma LockPairCanonical(from: int, to: int, token: string)
    ensures CreateLockPair(from, to, token) == CreateLockPair(to, from, token)
    ensures var p := CreateLockPair(from, to, token);
      && KeyOwner(p.firstKey, FirstLockPrefix) == MinId(from, to)
      && KeyOwner(p.secondKey, SecondLockPrefix) == MaxId(from, to)
      && KeyOwner(p.firstKey, FirstLockPrefix) <= KeyOwner(p.secondKey, SecondLockPrefix)
  {
    KeySuffix(FirstLockPrefix, MinId(from, to));
    KeySuffix(SecondLockPrefix, MaxId(from, to));
    ParseLongToString(MinId(from, to));
    ParseLongToString(MaxId(from, to));
  }

  /** Two transfers get the same pair of keys only when they concern the same two owners. */
  lemma LockPairIdentifiesOwners(a: int, b: int, c: int, d: int, t: string, t': string)
    requires CreateLockPair(a, b, t).firstKey == CreateLockPair(c, d, t').firstKey
    requires CreateLockPair(a, b, t).secondKey == CreateLockPair(c, d, t').secondKey
    ensures {a, b} == {c, d}
  {
    KeySuffix(FirstLockPrefix, MinId(a, b));
    KeySuffix(FirstLockPrefix, MinId(c, d));
    KeySuffix(SecondLockPrefix, MaxId(a, b));
    KeySuffix(SecondLockPrefix, MaxId(c, d));
    LongToStringInjective(MinId(a, b), MinId(c, d));
    LongToStringInjective(MaxId(a, b), MaxId(c, d));
  }

  /**
   The lock taken on one owner's behalf has a different key depending on
   whether that owner is the smaller or the larger id of its pair, so a
   transfer 1 -> 2 and a transfer 2 -> 3 do not contend on owner 2.
   */
  lemma OwnerKeyDependsOnPosition(x: int, y: int, z: int, t: string)
    requires y < x < z
    ensures CreateLockPair(y, x, t).secondKey != CreateLockPair(x, z, t).firstKey
  {
  }

  // ------------------------------------------------------------ lock phases

  /** One call made on the lock manager. */
  datatype LockCall =
    | Acquire(key: string, lockId: string, timeoutSeconds: nat)
    | Release(key: string, lockId: string)

  datatype LockPhase = LockPhase(outcome: Outcome, locks: Store, calls: seq<LockCall>)

  function TransferLease(p: LockPair): Lease {
    Lease(p.lockId, TransferLockTimeoutSeconds)
  }

  /** `acquireLocks`: the first key, then (only if that succeeded) the second. */
  function AcquireLocks(s: Store, p: LockPair): (r: LockPhase)
    ensures r.outcome.Pass? <==> p.firstKey !in s && p.secondKey !in s && p.firstKey != p.secondKey
    ensures p.firstKey in s ==>
      r == LockPhase(Fail(InsufficientFunds(LockBusy(p.firstKey))), s,
                     [Acquire(p.firstKey, p.lockId, TransferLockTimeoutSeconds)])
    ensures p.firstKey !in s ==>
      r.calls == [Acquire(p.firstKey, p.lockId, TransferLockTimeoutSeconds),
                  Acquire(p.secondKey, p.lockId, TransferLockTimeoutSeconds)]
    ensures p.firstKey !in s && r.outcome.Fail? ==>
      r.outcome == Fail(TransferFailed(p.secondKey)) && r.locks == s[p.firstKey := TransferLease(p)]
    ensures r.outcome.Pass? ==>
      r.locks == s[p.firstKey := TransferLease(p)][p.secondKey := TransferLease(p)]
  {
    var timeout := Some(TransferLockTimeoutSeconds);
    var first := AcquireLock(s, p.firstKey, p.lockId, timeout);
    var firstCall := Acquire(p.firstKey, p.lockId, TransferLockTimeoutSeconds);
    if !first.ok then
      LockPhase(Fail(InsufficientFunds(LockBusy(p.firstKey))), first.store, [firstCall])
    else
      var second := AcquireLock(first.store, p.secondKey, p.lockId, timeout);
      var calls := [firstCall, Acquire(p.secondKey, p.lockId, TransferLockTimeoutSeconds)];
      if !second.ok then LockPhase(Fail(TransferFailed(p.secondKey)), second.store, calls)
      else LockPhase(Pass, second.store, calls)
  }

  datatype Released = Released(locks: Store, calls: seq<LockCall>)

  /** `releaseLocks`: the second key, then the first, each only if held under the pair's token. */
  function ReleaseLocks(s: Store, p: LockPair): (r: Released)
    ensures r.calls == [Release(p.secondKey, p.lockId), Release(p.firstKey, p.lockId)]
    ensures !Holds(r.locks, p.firstKey, p.lockId) && !Holds(r.locks, p.secondKey, p.lockId)
    ensures forall k :: k in r.locks ==> k in s && r.locks[k] == s[k]
    ensures forall k :: k in s && s[k].token != p.lockId ==> k in r.locks
    ensures forall k :: k in s && k != p.firstKey && k != p.secondKey ==> k in r.locks
  {
    var afterSecond := ReleaseLock(s, p.secondKey, p.lockId);
    Released(ReleaseLock(afterSecond, p.firstKey, p.lockId),
             [Release(p.secondKey, p.lockId), Release(p.firstKey, p.lockId)])
  }

  // ------------------------------------------------------- balance movement

  datatype Role = SenderRole | ReceiverRole

  /** `getAccountWithLock`: the owner's account or a role-tagged not-found error. */
  function GetAccountWithLock(m: Accounts, userId: int, role: Role): (r: Result<Account>)
    ensures r.Ok? <==> userId in m
    ensures r.Ok? ==> r.value == m[userId]
    ensures r.Err? && role == SenderRole ==> r.error == AccountNotFound(SenderAccount(userId))
    ensures r.Err? && role == ReceiverRole ==> r.error == AccountNotFound(ReceiverAccount(userId))
  {
    match FindByUserId(m, userId)
    case Some(a) => Ok(a)
    case None => Err(AccountNotFound(if role == SenderRole then SenderAccount(userId) else ReceiverAccount(userId)))
  }

  /** `amount` left `from` and reached `to`; nothing else in the ledger changed. */
  predicate Moved(m: Accounts, m': Accounts, from: int, to: int, amount: real) {
    && from in m && to in m
    && m'.Keys == m.Keys
    && m'[from] == m[from].(balance := m[from].balance - amount)
    && m'[to] == m[to].(balance := m[to].balance + amount)
    && forall o :: o in m && o != from && o != to ==> m'[o] == m[o]
  }

  /** `performTransfer`: read sender then receiver, check funds, move the amount. */
  function PerformTransfer(m: Accounts, from: int, to: int, amount: real): (r: Result<Accounts>)
    requires from != to
    ensures r.Ok? <==> from in m && to in m && m[from].balance >= amount
    ensures from !in m ==> r == Err(AccountNotFound(SenderAccount(from)))
    ensures from in m && to !in m ==> r == Err(AccountNotFound(ReceiverAccount(to)))
    ensures from in m && to in m && m[from].balance < amount ==>
      r == Err(InsufficientFunds(Balance(m[from].balance, amount)))
    ensures r.Ok? ==> Moved(m, r.value, from, to, amount)
    ensures r.Ok? ==> r.value[from].balance + r.value[to].balance == m[from].balance + m[to].balance
    ensures r.Ok? ==> Total(r.value) == Total(m)
  {
    match GetAccountWithLock(m, from, SenderRole)
    case Err(e) => Err(e)
    case Ok(sender) =>
      match GetAccountWithLock(m, to, ReceiverRole)
      case Err(e) => Err(e)
      case Ok(receiver) =>
        if sender.balance < amount then Err(InsufficientFunds(Balance(sender.balance, amount)))
        else
          var debited := m[from := sender.(balance := sender.balance - amount)];
          var credited := debited[to := receiver.(balance := receiver.balance + amount)];
          TotalUpdate(m, from, debited[from]);
          TotalUpdate(debited, to, credited[to]);
          Ok(credited)
  }

  // --------------------------------------------------------------- transfer

  datatype World = World(locks: Store, accounts: Accounts)

  datatype TransferRun = TransferRun(outcome: Outcome, world: World, calls: seq<LockCall>)

  /** The lock calls end with the pair's two releases, second key first, and nothing else releases. */
  predicate ReleasedLastOnce(calls: seq<LockCall>, p: LockPair) {
    && |calls| >= 2
    && calls[|calls| - 2..] == [Release(p.secondKey, p.lockId), Release(p.firstKey, p.lockId)]
    && forall i :: 0 <= i < |calls| - 2 ==> calls[i].Acquire?
  }

  /** True when the transfer would get both locks and find both accounts with enough funds. */
  predicate CanComplete(w: World, from: int, to: int, amount: real, token: string) {
    var p := CreateLockPair(from, to, token);
    && p.firstKey !in w.locks && p.secondKey !in w.locks
    && from in w.accounts && to in w.accounts
    && w.accounts[from].balance >= amount
  }

  /** `transferMoney`: validate, lock, move, and release in a `finally`. */
  function TransferMoney(w: World, from: int, to: int, amount: real, token: string): (r: TransferRun)
    ensures r.outcome.Pass? <==> amount > 0.0 && from != to && CanComplete(w, from, to, amount, token)
    ensures ValidateTransferRequest(from, to, amount).Fail? ==>
      r == TransferRun(ValidateTransferRequest(from, to, amount), w, [])
    ensures ValidateTransferRequest(from, to, amount).Pass? ==>
      var p := CreateLockPair(from, to, token);
      && ReleasedLastOnce(r.calls, p)
      && (p.firstKey in w.locks ==>
            r.calls == [Acquire(p.firstKey, token, TransferLockTimeoutSeconds),
                        Release(p.secondKey, token), Release(p.firstKey, token)])
      && (p.firstKey !in w.locks ==>
            r.calls == [Acquire(p.firstKey, token, TransferLockTimeoutSeconds),
                        Acquire(p.secondKey, token, TransferLockTimeoutSeconds),
                        Release(p.secondKey, token), Release(p.firstKey, token)])
    ensures r.outcome.Fail? ==> r.world.accounts == w.accounts
    ensures r.outcome.Pass? ==> Moved(w.accounts, r.world.accounts, from, to, amount)
    ensures Total(r.world.accounts) == Total(w.accounts)
  {
    match ValidateTransferRequest(from, to, amount)
    case Fail(e) => TransferRun(Fail(e), w, [])
    case Pass =>
      var p := CreateLockPair(from, to, token);
      var acquired := AcquireLocks(w.locks, p);
      var moved := if acquired.outcome.Fail? then Err(acquired.outcome.error)
                   else PerformTransfer(w.accounts, from, to, amount);
      var released := ReleaseLocks(acquired.locks, p);
      var calls := acquired.calls + released.calls;
      assert calls[|calls| - 2..] == released.calls;
      match moved
      case Ok(m') => TransferRun(Pass, World(released.locks, m'), calls)
      case Err(e) => TransferRun(Fail(e), World(released.locks, w.accounts), calls)
  }

  /** Which error a transfer that passed validation but cannot complete reports, in check order. */
  lemma TransferErrorOrder(w: World, from: int, to: int, amount: real, token: string)
    requires amount > 0.0 && from != to
    ensures var p := CreateLockPair(from, to, token);
      var r := TransferMoney(w, from, to, amount, token);
      && (p.firstKey in w.locks ==> r.outcome == Fail(InsufficientFunds(LockBusy(p.firstKey))))
      && (p.firstKey !in w.locks && p.secondKey in w.locks ==> r.outcome == Fail(TransferFailed(p.secondKey)))
      && (p.firstKey !in w.locks && p.secondKey !in w.locks ==>
            && (from !in w.accounts ==> r.outcome == Fail(AccountNotFound(SenderAccount(from))))
            && (from in w.accounts && to !in w.accounts ==> r.outcome == Fail(AccountNotFound(ReceiverAccount(to))))
            && (from in w.accounts && to in w.accounts && w.accounts[from].balance < amount ==>
                  r.outcome == Fail(InsufficientFunds(Balance(w.accounts[from].balance, amount)))))
  {
  }

  /**
   With a freshly generated token the lock store ends exactly as it started,
   on every path: whatever the transfer acquired is released, and no lock
   held by anyone else is touched, even on the paths where a key it never
   obtained is released.
   */
  lemma TransferRestoresLocks(w: World, from: int, to: int, amount: real, token: string)
    requires TokenUnused(w.locks, token)
    ensures TransferMoney(w, from, to, amount, token).world.locks == w.locks
  {
  }

  /** Transfers in opposite directions between the same owners make the same lock calls. */
  lemma LockOrderIndependentOfDirection(w: World, a: int, b: int, x: real, y: real, token: string)
    requires a != b && x > 0.0 && y > 0.0
    ensures TransferMoney(w, a, b, x, token).calls == TransferMoney(w, b, a, y, token).calls
  {
  }

  /** Balances never go negative through a transfer. */
  lemma TransferKeepsNonNegative(w: World, from: int, to: int, amount: real, token: string)
    requires NonNegative(w.accounts)
    ensures NonNegative(TransferMoney(w, from, to, amount, token).world.accounts)
  {
  }

  /** The worked example: 500 and 200, transfer 100, gives 400 and 300, both locks released once. */
  lemma TransferExample(token: string)
    ensures var w := World(map[], map[1 := Account(500.0, 500.0), 2 := Account(200.0, 200.0)]);
      var r := TransferMoney(w, 1, 2, 100.0, token);
      && r.outcome == Pass
      && r.world.accounts[1].balance == 400.0 && r.world.accounts[2].balance == 300.0
      && r.world.locks == map[]
      && r.calls == [Acquire("transfer - lock:1", token, 10), Acquire("transfer-lock:2", token, 10),
                     Release("transfer-lock:2", token), Release("transfer - lock:1", token)]
  {
    var w := World(map[], map[1 := Account(500.0, 500.0), 2 := Account(200.0, 200.0)]);
    assert LongToString(1) == "1" && LongToString(2) == "2";
    assert CreateLockPair(1, 2, token) == LockPair("transfer - lock:1", "transfer-lock:2", token);
    assert w.accounts[1].balance >= 100.0;
    TransferRestoresLocks(w, 1, 2, 100.0, token);
  }

  // --------------------------------------------------------------- interest

  /**
   `applyInterest`: every eligible account is grown to `min(balance * rate,
   ceiling)`, and its balance is written only when that value differs. The
   `enabled` flag is not consulted here.
   */
  method ApplyInterest(m: Accounts, c: Config) returns (r: Accounts, written: set<int>)
    ensures r == Accrued(m, c)
    ensures written <= EligibleOwners(m, c)
    ensures forall o :: o in m ==> (o in written <==> r[o].balance != m[o].balance)
    ensures Valid(c) && NonNegative(m) ==>
      forall o :: o in written <==> o in m && Eligible(m[o], c) && m[o].balance > 0.0
  {
    var fetched := EligibleOwners(m, c);
    var todo := fetched;
    r := m;
    written := {};
    while todo != {}
      invariant todo <= fetched
      invariant r.Keys == m.Keys
      invariant forall o :: o in m ==> r[o] == (if o in fetched - todo then Grow(m[o], c) else m[o])
      invariant forall o :: o in written <==> o in fetched - todo && Grow(m[o], c).balance != m[o].balance
      invariant written <= fetched
      decreases todo
    {
      NonEmptyHasMember(todo);
      var o :| o in todo;
      var grown := Grow(r[o], c);
      if grown.balance != r[o].balance {
        r := r[o := grown];
        written := written + {o};
      }
      todo := todo - {o};
    }
    assert fetched - todo == fetched;
    assert forall o :: o in m ==> r[o] == Accrued(m, c)[o];
    if Valid(c) && NonNegative(m) {
      forall o | o in m && Eligible(m[o], c)
        ensures Grow(m[o], c).balance != m[o].balance <==> m[o].balance > 0.0
      {
        GrowChangesPositive(m[o], c);
      }
    }
  }
}
