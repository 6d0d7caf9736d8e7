/** Redis keys with an expiry: a key is gone from its expiry on. */
module RedisKeys {
  import opened Wrappers

  datatype Entry<V> = Entry(value: V, expiresAt: int)

  function Get<V>(entries: map<string, Entry<V>>, key: string, now: int): Option<V> {
    if key in entries && now < entries[key].expiresAt then Some(entries[key].value) else None
  }
}
