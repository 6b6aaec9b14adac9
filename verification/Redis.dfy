/** The two Redis operations that the lock protocols rest on. */
module Redis {

  /** SET key value NX: take the key only when nobody holds it. */
  function SetNx<V>(keys: map<string, V>, key: string, value: V): (r: (map<string, V>, bool))
    ensures r.1 <==> key !in keys
    ensures key in r.0 && (r.1 ==> r.0[key] == value) && (!r.1 ==> r.0 == keys)
    ensures r.0.Keys == keys.Keys + {key} && forall k :: k in keys ==> r.0[k] == keys[k]
  {
    if key in keys then (keys, false) else (keys[key := value], true)
  }

  /** The compare-and-delete script: free the key only when it holds this token. */
  function Release<V(==)>(keys: map<string, V>, key: string, token: V): (r: (map<string, V>, bool))
    ensures r.1 <==> key in keys && keys[key] == token
    ensures forall k :: k in keys && !(k == key && keys[k] == token) ==> k in r.0 && r.0[k] == keys[k]
    ensures r.0.Keys == if r.1 then keys.Keys - {key} else keys.Keys
  {
    if key in keys && keys[key] == token then (keys - {key}, true) else (keys, false)
  }

  class RedisService {
    var keys: map<string, string>

    constructor ()
      ensures keys == map[]
    {
      keys := map[];
    }

    method Setnx(key: string, value: string) returns (taken: bool)
      modifies this
      ensures (keys, taken) == SetNx(old(keys), key, value)
    {
      taken := key !in keys;
      if taken {
        keys := keys[key := value];
      }
    }

    method ReleaseLock(key: string, token: string) returns (released: bool)
      modifies this
      ensures (keys, released) == Release(old(keys), key, token)
    {
      released := false;
      if key in keys && keys[key] == token {
        keys := keys - {key};
        released := true;
      }
    }
  }
}
