/** The Redis key space the booking handlers use: every live key has an
    expiry instant on an integer clock (seconds). Stored values ('locked',
    'pending') are never read back, so only key and expiry are kept. */
module Cache {
  import opened Wrappers
  import opened Text

  type Keyspace = map<string, int>

  /** `EX 30` on the per-show seat lock. */
  const LockTtl: int := 30

  /** A key exists for Redis at instant `now` when it is stored and has not expired. */
  predicate Live(c: Keyspace, k: string, now: int)
  {
    k in c && now < c[k]
  }

  /** `SET k v NX EX ttl`: granted only when `k` is not live; the flag is Redis's 'OK' versus null. */
  function SetNx(c: Keyspace, k: string, ttl: int, now: int): (r: (bool, Keyspace))
    requires 0 < ttl
    ensures r.0 <==> !Live(c, k, now)
    ensures r.0 ==> Live(r.1, k, now) && r.1[k] == now + ttl
    ensures !r.0 ==> r.1 == c
    ensures forall other :: other != k ==> (other in r.1 <==> other in c)
    ensures forall other :: other != k && other in c ==> r.1[other] == c[other]
  {
    if Live(c, k, now) then (false, c) else (true, c[k := now + ttl])
  }

  /** `DEL k`: unconditional, whoever set the key. */
  function Del(c: Keyspace, k: string): (r: Keyspace)
    ensures k !in r
    ensures forall other :: other != k ==> (other in r <==> other in c)
    ensures forall other :: other != k && other in c ==> r[other] == c[other]
  {
    c - {k}
  }

  /** `SETEX k ttl v`: Redis rejects a non-positive ttl with an error reply (None). */
  function SetEx(c: Keyspace, k: string, ttl: int, now: int): (r: Option<Keyspace>)
    ensures r.Some? <==> 0 < ttl
    ensures r.Some? ==> Live(r.value, k, now) && r.value[k] == now + ttl
    ensures r.Some? ==> forall other :: other != k ==> (other in r.value <==> other in c)
    ensures r.Some? ==> forall other :: other != k && other in c ==> r.value[other] == c[other]
  {
    if ttl <= 0 then None else Some(c[k := now + ttl])
  }

  /** `show:<id>:seats`, the per-show lock. */
  function LockKey(showId: nat): string
  {
    "show:" + NatToString(showId) + ":seats"
  }

  /** `booking:<id>`, the pending-booking expiry marker. */
  function MarkerKey(bookingId: nat): string
  {
    "booking:" + NatToString(bookingId)
  }

  /** Mutual exclusion with self-healing: once `SetNx` grants `k` at `now`,
      every later `SetNx` on `k` is refused exactly until the ttl has run out. */
  lemma SetNxExcludesUntilExpiry(c: Keyspace, k: string, ttl: int, now: int, later: int, ttl2: int)
    requires 0 < ttl && 0 < ttl2 && now <= later
    requires SetNx(c, k, ttl, now).0
    ensures SetNx(SetNx(c, k, ttl, now).1, k, ttl2, later).0 <==> now + ttl <= later
  {
  }

  /** Locks of different shows are different keys. */
  lemma {:induction false} LockKeyInjective(a: nat, b: nat)
    requires LockKey(a) == LockKey(b)
    ensures a == b
  {
    var sa, sb := NatToString(a), NatToString(b);
    assert |sa| == |sb|;
    assert sa == LockKey(a)[5..5 + |sa|];
    assert sb == LockKey(b)[5..5 + |sb|];
    NatToStringInjective(a, b);
  }

  /** Markers of different bookings are different keys. */
  lemma {:induction false} MarkerKeyInjective(a: nat, b: nat)
    requires MarkerKey(a) == MarkerKey(b)
    ensures a == b
  {
    assert NatToString(a) == MarkerKey(a)[8..];
    assert NatToString(b) == MarkerKey(b)[8..];
    NatToStringInjective(a, b);
  }

  /** No booking marker can be taken for a seat lock. */
  lemma LockKeyIsNotMarker(showId: nat, bookingId: nat)
    ensures LockKey(showId) != MarkerKey(bookingId)
  {
    assert LockKey(showId)[0] == 's' && MarkerKey(bookingId)[0] == 'b';
  }
}
