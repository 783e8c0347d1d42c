/**
 `PolicyObjectStore` (crates/fileferry-storage/src/lib.rs): operations are
 retried with exponential backoff.  A failed attempt may still have taken
 effect, and a timed-out one may take effect later.
 */
module RetriedStore {
  import opened Common
  import opened ObjectStore

  datatype Error =
    | InvalidObjectKey | ObjectAlreadyExists | ObjectNotFound | Io | BackendConfig
    | ObjectIo | BackendObject | Backend | Timeout | PolicyConfig

  predicate IsRetryable(e: Error) {
    e.Io? || e.ObjectIo? || e.BackendObject? || e.Backend? || e.Timeout?
  }

  /** Five kinds of errors are worth another attempt, the other five are not. */
  lemma RetryableErrors(e: Error)
    ensures IsRetryable(e) <==> Some(e) in {Some(Io), Some(ObjectIo), Some(BackendObject), Some(Backend), Some(Timeout)}
    ensures !IsRetryable(e) <==> e in {InvalidObjectKey, Error.ObjectAlreadyExists, Error.ObjectNotFound, BackendConfig,
                                       PolicyConfig}
  {
  }

  // ---------- Backoff ----------

  /** Durations in nanoseconds; the largest is u64::MAX seconds and 999999999 nanoseconds. */
  const MAX_DURATION: nat := 0xffff_ffff_ffff_ffff * 1_000_000_000 + 999_999_999

  datatype Policy = Policy(maxAttempts: nat, timeout: nat, initialBackoff: nat, maxBackoff: nat, maxConcurrency: nat)

  predicate ValidPolicy(p: Policy) {
    p.maxAttempts > 0 && p.timeout > 0 && 0 < p.initialBackoff <= p.maxBackoff <= MAX_DURATION && p.maxConcurrency > 0
  }

  function SaturatingDouble(d: nat): nat {
    if 2 * d > MAX_DURATION then MAX_DURATION else 2 * d
  }

  function NextBackoff(current: nat, max: nat): nat {
    var doubled := SaturatingDouble(current);
    if doubled > max then max else doubled
  }

  function Pow2(k: nat): nat {
    if k == 0 then 1 else 2 * Pow2(k - 1)
  }

  /** The k-th pause: doubled k times, but never above the maximum. */
  function Pause(p: Policy, k: nat): nat {
    if p.initialBackoff * Pow2(k) > p.maxBackoff then p.maxBackoff else p.initialBackoff * Pow2(k)
  }

  lemma PauseDoubles(p: Policy, k: nat)
    requires ValidPolicy(p)
    ensures NextBackoff(Pause(p, k), p.maxBackoff) == Pause(p, k + 1)
  {
    assert p.initialBackoff * Pow2(k + 1) == 2 * (p.initialBackoff * Pow2(k));
  }

  // ---------- Retried puts ----------

  /**
   What happens around one attempt.  `rival`: another client puts these bytes
   first.  `late`: the effect of an earlier attempt arrives now.  `failure`:
   the attempt reports this error, with or without effect.
   */
  datatype Attempt<V> = Attempt(rival: Option<V>, late: bool, failure: Option<Error>, takesEffect: bool)

  function Lift(status: Result<PutStatus, StorageError>): Result<PutStatus, Error> {
    match status
    case Ok(s) => Ok(s)
    case Err(e) =>
      Err(if e == StorageError.ObjectAlreadyExists then Error.ObjectAlreadyExists else Error.ObjectNotFound)
  }

  /** The values that clients tried to put under the key. */
  predicate Offered<V(==)>(bytes: V, schedule: seq<Attempt<V>>, v: V) {
    v == bytes || exists i :: 0 <= i < |schedule| && schedule[i].rival == Some(v)
  }

  /** The key is untouched, or the first of the offered values won. */
  ghost predicate FirstOfferWins<K, V>(before: map<K, V>, after: map<K, V>, key: K, bytes: V,
                                       schedule: seq<Attempt<V>>) {
    after == before
    || (key !in before && key in after && after == before[key := after[key]] && Offered(bytes, schedule, after[key]))
  }

  lemma OffersAccumulate<K, V>(before: map<K, V>, now: map<K, V>, key: K, bytes: V, schedule: seq<Attempt<V>>,
                               n: nat)
    requires n < |schedule| && FirstOfferWins(before, now, key, bytes, schedule[..n])
    ensures FirstOfferWins(before, now, key, bytes, schedule[..n + 1])
    ensures schedule[n].rival.Some? ==> Offered(bytes, schedule[..n + 1], schedule[n].rival.value)
  {
    forall u | Offered(bytes, schedule[..n], u)
      ensures Offered(bytes, schedule[..n + 1], u)
    {
      if u != bytes {
        var i :| 0 <= i < n && schedule[..n][i].rival == Some(u);
        assert schedule[..n + 1][i].rival == Some(u);
      }
    }
    assert schedule[..n + 1][n] == schedule[n];
  }

  /** Putting an offered value keeps what earlier puts have made true. */
  lemma PutAnOffer<K, V>(before: map<K, V>, start: map<K, V>, now: map<K, V>, key: K, bytes: V,
                         schedule: seq<Attempt<V>>, v: V)
    requires FirstOfferWins(before, now, key, bytes, schedule) && Offered(bytes, schedule, v) && Grows(start, now)
    ensures FirstOfferWins(before, Put(now, key, v).objects, key, bytes, schedule)
    ensures Grows(start, Put(now, key, v).objects)
  {
  }

  /** Alone, a failed put leaves the store as it was or with exactly the caller's object added. */
  lemma WithoutRivals<K, V>(before: map<K, V>, after: map<K, V>, key: K, bytes: V, schedule: seq<Attempt<V>>)
    requires FirstOfferWins(before, after, key, bytes, schedule)
    requires forall i :: 0 <= i < |schedule| ==> schedule[i].rival.None?
    ensures after == before || (key !in before && after == before[key := bytes])
  {
  }

  /** Ok means the key holds exactly these bytes, a conflict means it holds others. */
  predicate Settled<K, V(==)>(result: Result<PutStatus, Error>, objects: map<K, V>, key: K, bytes: V) {
    && key in objects
    && (result.Ok? <==> objects[key] == bytes)
    && (result.Err? ==> result == Err(Error.ObjectAlreadyExists))
  }

  lemma PutSettles<K, V>(objects: map<K, V>, key: K, bytes: V)
    ensures Settled(Lift(Put(objects, key, bytes).status), Put(objects, key, bytes).objects, key, bytes)
  {
  }

  /** No attempt reports a conflict that the inner store did not find. */
  predicate NoInventedConflict<V>(schedule: seq<Attempt<V>>) {
    forall i :: 0 <= i < |schedule| ==> schedule[i].failure != Some(Error.ObjectAlreadyExists)
  }

  lemma NothingYet<K, V>(policy: Policy, objects: map<K, V>, key: K, bytes: V, schedule: seq<Attempt<V>>)
    requires ValidPolicy(policy)
    ensures Grows(objects, objects) && FirstOfferWins(objects, objects, key, bytes, schedule[..0])
    ensures policy.initialBackoff == Pause(policy, 0)
  {
  }

  lemma StillGrows<K, V>(before: map<K, V>, now: map<K, V>, later: map<K, V>)
    requires Grows(before, now) && Grows(now, later)
    ensures Grows(before, later)
  {
  }

  class PolicyObjectStore<K(==), V(==)> {
    const inner: FakeObjectStore<K, V>
    const policy: Policy

    constructor (inner: FakeObjectStore<K, V>, policy: Policy)
      requires ValidPolicy(policy)
      ensures this.inner == inner && this.policy == policy
    {
      this.inner := inner;
      this.policy := policy;
    }

    /** One call of the inner store, with everything that may happen around it. */
    method TryPut(key: K, bytes: V, a: Attempt<V>, ghost before: map<K, V>, ghost schedule: seq<Attempt<V>>,
                  ghost n: nat)
      returns (result: Result<PutStatus, Error>)
      requires n < |schedule| && schedule[n] == a
      requires FirstOfferWins(before, inner.objects, key, bytes, schedule[..n])
      modifies inner
      ensures FirstOfferWins(before, inner.objects, key, bytes, schedule[..n + 1])
      ensures Grows(old(inner.objects), inner.objects)
      ensures a.failure.Some? ==> result == Err(a.failure.value)
      ensures a.failure.None? ==> Settled(result, inner.objects, key, bytes)
    {
      hide FirstOfferWins, Put;
      ghost var start, offers := inner.objects, schedule[..n + 1];
      OffersAccumulate(before, start, key, bytes, schedule, n);
      if a.rival.Some? {
        PutAnOffer(before, start, inner.objects, key, bytes, offers, a.rival.value);
        var _ := inner.PutIfAbsent(key, a.rival.value);
      }
      PutAnOffer(before, start, inner.objects, key, bytes, offers, bytes);
      if a.late {
        var _ := inner.PutIfAbsent(key, bytes);
      }
      PutAnOffer(before, start, inner.objects, key, bytes, offers, bytes);
      PutSettles(inner.objects, key, bytes);
      if a.failure.None? {
        var status := inner.PutIfAbsent(key, bytes);
        result := Lift(status);
      } else {
        if a.takesEffect {
          var _ := inner.PutIfAbsent(key, bytes);
        }
        result := Err(a.failure.value);
      }
    }

    /** `put_if_absent` through `run`. */
    method PutIfAbsent(key: K, bytes: V, schedule: seq<Attempt<V>>)
      returns (result: Result<PutStatus, Error>, attempts: nat, pauses: seq<nat>)
      requires ValidPolicy(policy) && |schedule| >= policy.maxAttempts
      modifies inner
      ensures 1 <= attempts <= policy.maxAttempts && |pauses| == attempts - 1
      ensures forall k :: 0 <= k < |pauses| ==> pauses[k] == Pause(policy, k)
      ensures forall k :: 0 <= k < attempts - 1 ==>
                schedule[k].failure in {Some(Io), Some(ObjectIo), Some(BackendObject), Some(Backend), Some(Timeout)}
      ensures result.Err? && attempts < policy.maxAttempts ==>
                result.error in {InvalidObjectKey, Error.ObjectAlreadyExists, Error.ObjectNotFound, BackendConfig,
                                 PolicyConfig}
      ensures Grows(old(inner.objects), inner.objects)
      ensures FirstOfferWins(old(inner.objects), inner.objects, key, bytes, schedule[..attempts])
      ensures schedule[attempts - 1].failure.Some? ==> result == Err(schedule[attempts - 1].failure.value)
      ensures schedule[attempts - 1].failure.None? ==> Settled(result, inner.objects, key, bytes)
      ensures NoInventedConflict(schedule) && result == Err(Error.ObjectAlreadyExists) ==>
                key in inner.objects && inner.objects[key] != bytes
    {
      hide FirstOfferWins, IsRetryable, Pause, NextBackoff, Grows;
      ghost var before := inner.objects;
      var backoff := policy.initialBackoff;
      NothingYet(policy, before, key, bytes, schedule);
      attempts, pauses := 0, [];
      while true
        invariant 0 <= attempts < policy.maxAttempts && |pauses| == attempts
        invariant backoff == Pause(policy, attempts)
        invariant forall k :: 0 <= k < |pauses| ==> pauses[k] == Pause(policy, k)
        invariant forall k :: 0 <= k < attempts ==>
                    schedule[k].failure in {Some(Io), Some(ObjectIo), Some(BackendObject), Some(Backend), Some(Timeout)}
        invariant Grows(before, inner.objects)
        invariant FirstOfferWins(before, inner.objects, key, bytes, schedule[..attempts])
        decreases policy.maxAttempts - attempts
      {
        ghost var now := inner.objects;
        result := TryPut(key, bytes, schedule[attempts], before, schedule, attempts);
        StillGrows(before, now, inner.objects);
        attempts := attempts + 1;
        if result.Ok? {
          return;
        }
        RetryableErrors(result.error);
        if attempts < policy.maxAttempts && IsRetryable(result.error) {
          pauses := pauses + [backoff];
          PauseDoubles(policy, attempts - 1);
          backoff := NextBackoff(backoff, policy.maxBackoff);
        } else {
          return;
        }
      }
    }
  }
}
