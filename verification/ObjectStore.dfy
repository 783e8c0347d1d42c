/**
 The object store contract: an atomic map of immutable objects
 (crates/fileferry-testkit/src/lib.rs, `FakeObjectStore`; the trait is in
 crates/fileferry-storage/src/lib.rs).
 */
module ObjectStore {
  import opened Common

  datatype PutStatus = Created | AlreadyPresent

  datatype StorageError = ObjectAlreadyExists | ObjectNotFound

  datatype PutResult<K, V> = PutResult(objects: map<K, V>, status: Result<PutStatus, StorageError>)

  function Put<K, V(==)>(objects: map<K, V>, key: K, bytes: V): PutResult<K, V> {
    if key !in objects then PutResult(objects[key := bytes], Ok(Created))
    else if objects[key] == bytes then PutResult(objects, Ok(AlreadyPresent))
    else PutResult(objects, Err(ObjectAlreadyExists))
  }

  /** `later` still has every object of `earlier`, unchanged. */
  predicate Grows<K, V(==)>(earlier: map<K, V>, later: map<K, V>) {
    forall k :: k in earlier ==> k in later && later[k] == earlier[k]
  }

  lemma PutNeverChangesObjects<K, V>(objects: map<K, V>, key: K, bytes: V)
    ensures Grows(objects, Put(objects, key, bytes).objects)
    ensures Put(objects, key, bytes).status.Ok?
            <==> key in Put(objects, key, bytes).objects && Put(objects, key, bytes).objects[key] == bytes
  {
  }

  class FakeObjectStore<K(==), V(==)> {
    var objects: map<K, V>

    constructor ()
      ensures objects == map[]
    {
      objects := map[];
    }

    method PutIfAbsent(key: K, bytes: V) returns (status: Result<PutStatus, StorageError>)
      modifies this
      ensures Put(old(objects), key, bytes) == PutResult(objects, status)
    {
      if key in objects {
        if objects[key] == bytes {
          status := Ok(AlreadyPresent);
        } else {
          status := Err(ObjectAlreadyExists);
        }
      } else {
        objects := objects[key := bytes];
        status := Ok(Created);
      }
    }

    method Get(key: K) returns (bytes: Result<V, StorageError>)
      ensures bytes == if key in objects then Ok(objects[key]) else Err(ObjectNotFound)
    {
      if key in objects {
        bytes := Ok(objects[key]);
      } else {
        bytes := Err(ObjectNotFound);
      }
    }

    method Exists(key: K) returns (present: bool)
      ensures present <==> key in objects
    {
      present := key in objects;
    }

    method Delete(key: K)
      modifies this
      ensures objects == old(objects) - {key}
    {
      objects := objects - {key};
    }
  }
}
