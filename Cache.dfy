/**
 * The Redis store behind the handler, as an in-process map from key to value
 * and expiry time (in seconds). GET and SET with EX are the only commands used
 * (src/app/api/resize/route.ts:42 and :50). Expiry is lazy: an expired entry
 * stays in the map but reads as absent.
 */
module Cache {
  import opened Common

  datatype Entry = Entry(value: string, expiresAt: int)

  type Store = map<string, Entry>

  /** GET: the value of a live entry; nothing for a missing or expired one. */
  function Get(store: Store, key: string, now: int): (r: Option<string>)
    ensures r.Some? <==> key in store && now < store[key].expiresAt
    ensures r.Some? ==> r.value == store[key].value
  {
    if key in store && now < store[key].expiresAt then Some(store[key].value) else None
  }

  /**
   * SET key value EX ttl: afterwards the key reads as value until ttl seconds
   * have passed and as absent from then on; every other key reads as before.
   */
  function Set(store: Store, key: string, value: string, now: int, ttl: nat): (r: Store)
    requires ttl > 0
    ensures r.Keys == store.Keys + {key}
    ensures forall t :: now <= t < now + ttl ==> Get(r, key, t) == Some(value)
    ensures forall t :: now + ttl <= t ==> Get(r, key, t) == None
    ensures forall k, t :: k != key ==> Get(r, k, t) == Get(store, k, t)
  {
    store[key := Entry(value, now + ttl)]
  }
}
