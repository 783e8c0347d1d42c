/**
 The bytes that the objects of a store take, and those of the objects that
 were added to it.  The length of one object is foreign: compression, JSON and
 encryption determine it.
 */
module StoredBytes {
  import opened Repository
  import opened ObjectStore

  ghost function AnyOf(keys: set<Key>): (k: Key)
    requires keys != {}
    ensures k in keys
  {
    var k :| k in keys;
    k
  }

  ghost function TotalSize(r: Repo, store: Store, keys: set<Key>): nat
    requires keys <= store.Keys
    decreases |keys|
  {
    if keys == {} then 0
    else
      var k := AnyOf(keys);
      r.size(store[k]) + TotalSize(r, store, keys - {k})
  }

  /** The sum does not depend on the order. */
  lemma {:induction false} OneMoreKey(r: Repo, store: Store, keys: set<Key>, k: Key)
    requires keys <= store.Keys && k in store && k !in keys
    ensures TotalSize(r, store, keys + {k}) == TotalSize(r, store, keys) + r.size(store[k])
    decreases |keys|
  {
    var first := AnyOf(keys + {k});
    if first == k {
      assert keys + {k} - {k} == keys;
    } else {
      var rest := keys - {first};
      assert keys + {k} - {first} == rest + {k} && rest + {first} == keys;
      OneMoreKey(r, store, rest, k);
      OneMoreKey(r, store, rest, first);
    }
  }

  lemma {:induction false} SameObjectsSameSize(r: Repo, store: Store, later: Store, keys: set<Key>)
    requires keys <= store.Keys && Grows(store, later)
    ensures keys <= later.Keys && TotalSize(r, later, keys) == TotalSize(r, store, keys)
    decreases |keys|
  {
    assert keys <= later.Keys;
    if keys != {} {
      SameObjectsSameSize(r, store, later, keys - {AnyOf(keys)});
    }
  }

  /** What the objects take that `after` has beyond `before`. */
  ghost function NewBytes(r: Repo, before: Store, after: Store): nat {
    TotalSize(r, after, after.Keys - before.Keys)
  }

  lemma NothingNew(r: Repo, store: Store)
    ensures NewBytes(r, store, store) == 0
  {
    assert store.Keys - store.Keys == {};
  }

  lemma OneNewObject(r: Repo, before: Store, now: Store, key: Key, o: Object)
    requires Grows(before, now) && key !in now
    ensures NewBytes(r, before, now[key := o]) == NewBytes(r, before, now) + r.size(o)
  {
    var later, keys := now[key := o], now.Keys - before.Keys;
    assert later.Keys - before.Keys == keys + {key};
    SameObjectsSameSize(r, now, later, keys);
    OneMoreKey(r, later, keys, key);
  }
}
