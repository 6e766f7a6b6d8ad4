/**
 The token-guarded lock store used to serialise transfers between two owners.

 The store maps a lock key to the lease that holds it: the holder's token and
 the expiry the key was set with. Expiry itself (the store dropping a key when
 its time runs out) is outside this sequential model; the lease only records
 which expiry the key was created with.
 */
module LockManager {
  import opened Errors

  /** Expiry used when the caller passes no timeout (a null `Duration`). */
  const DefaultLockTimeoutSeconds: nat := 30

  datatype Lease = Lease(token: string, ttlSeconds: nat)

  type Store = map<string, Lease>

  /** True when `key` is currently held under `token`. */
  predicate Holds(s: Store, key: string, token: string) {
    key in s && s[key].token == token
  }

  /** True when no key of the store is held under `token` (a freshly generated token). */
  predicate TokenUnused(s: Store, token: string) {
    forall k :: k in s ==> s[k].token != token
  }

  /** The expiry actually sent to the store for an optional caller timeout. */
  function EffectiveTimeout(timeout: Option<nat>): nat {
    match timeout
    case Some(t) => t
    case None => DefaultLockTimeoutSeconds
  }

  datatype Acquired = Acquired(ok: bool, store: Store)

  /** `acquireLock`: "set if absent" of `key` to the caller's token. */
  function AcquireLock(s: Store, key: string, lockId: string, timeout: Option<nat>): (r: Acquired)
    ensures r.ok <==> key !in s
    ensures r.ok ==> Holds(r.store, key, lockId)
    ensures r.ok && timeout.Some? ==> r.store[key].ttlSeconds == timeout.value
    ensures r.ok && timeout.None? ==> r.store[key].ttlSeconds == DefaultLockTimeoutSeconds
    ensures r.ok ==> r.store.Keys == s.Keys + {key}
    ensures !r.ok ==> r.store == s
    ensures forall k :: k in s ==> k in r.store && r.store[k] == s[k]
  {
    if key in s then Acquired(false, s)
    else Acquired(true, s[key := Lease(lockId, EffectiveTimeout(timeout))])
  }

  /** `releaseLock`: delete `key` only when it is held under the caller's token. */
  function ReleaseLock(s: Store, key: string, lockId: string): (r: Store)
    ensures Holds(s, key, lockId) ==> key !in r
    ensures !Holds(s, key, lockId) ==> r == s
    ensures forall k :: k != key ==> (k in r <==> k in s)
    ensures forall k :: k in r ==> k in s && r[k] == s[k]
  {
    if Holds(s, key, lockId) then s - {key} else s
  }

  /** Acquiring a free key and releasing it with the same token restores the store. */
  lemma AcquireReleaseRoundTrip(s: Store, key: string, lockId: string, timeout: Option<nat>)
    requires key !in s
    ensures ReleaseLock(AcquireLock(s, key, lockId, timeout).store, key, lockId) == s
  {
  }

  /** A caller with a different token cannot release, nor take over, a held key. */
  lemma HeldKeyIsExclusive(s: Store, key: string, holder: string, other: string, timeout: Option<nat>)
    requires Holds(s, key, holder)
    requires other != holder
    ensures ReleaseLock(s, key, other) == s
    ensures AcquireLock(s, key, other, timeout) == Acquired(false, s)
  {
  }

  /** Releasing a key nobody holds changes nothing. */
  lemma ReleaseAbsentKey(s: Store, key: string, lockId: string)
    requires key !in s
    ensures ReleaseLock(s, key, lockId) == s
  {
  }
}
