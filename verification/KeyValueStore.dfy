/** The demo's key-value store contract, as its in-memory implementation keeps it. */
module KeyValueStore {
  import opened Functions

  /** `value` stands for the decoded data. */
  datatype StateItem<V> = StateItem(value: V, etag: string)

  datatype StoreError = MissingForEtag | EtagMismatch

  type Stores<V> = map<string, map<string, StateItem<V>>>

  function Lookup<V>(stores: Stores<V>, storeName: string, key: string): Option<StateItem<V>> {
    if storeName in stores && key in stores[storeName] then Some(stores[storeName][key]) else None
  }

  /** The check behind an etag: absent and empty etags ask for nothing. */
  function SaveError<V>(current: Option<StateItem<V>>, etag: Option<string>): Option<StoreError> {
    if etag.None? || etag.value == "" then None
    else if current.None? then Some(MissingForEtag)
    else if current.value.etag != etag.value then Some(EtagMismatch)
    else None
  }

  /** Everything but one key is as it was. */
  ghost predicate SameElsewhere<V>(before: Stores<V>, after: Stores<V>, storeName: string, key: string) {
    forall s, k | (s, k) != (storeName, key) :: Lookup(after, s, k) == Lookup(before, s, k)
  }

  class InMemoryKVStore<V> {
    var stores: Stores<V>

    constructor ()
      ensures stores == map[]
    {
      stores := map[];
    }

    /** The clock's new etag is a parameter. */
    method SaveState(storeName: string, key: string, data: V, etag: Option<string>, newEtag: string)
      returns (error: Option<StoreError>)
      modifies this
      ensures error == SaveError(Lookup(old(stores), storeName, key), etag)
      ensures Lookup(stores, storeName, key)
              == if error.Some? then Lookup(old(stores), storeName, key) else Some(StateItem(data, newEtag))
      ensures SameElsewhere(old(stores), stores, storeName, key)
    {
      if storeName !in stores {
        stores := stores[storeName := map[]];
      }
      var store := stores[storeName];
      if etag.Some? && etag.value != "" {
        if key !in store {
          return Some(MissingForEtag);
        }
        if store[key].etag != etag.value {
          return Some(EtagMismatch);
        }
      }
      stores := stores[storeName := store[key := StateItem(data, newEtag)]];
      return None;
    }

    method GetState(storeName: string, key: string) returns (item: Option<StateItem<V>>)
      ensures item == Lookup(stores, storeName, key)
    {
      if storeName !in stores {
        return None;
      }
      var store := stores[storeName];
      if key !in store {
        return None;
      }
      return Some(store[key]);
    }

    /** Deleting what is not there succeeds, whatever the etag. */
    method DeleteState(storeName: string, key: string, etag: Option<string>) returns (error: Option<StoreError>)
      modifies this
      ensures error == if Lookup(old(stores), storeName, key).None? then None
                       else SaveError(Lookup(old(stores), storeName, key), etag)
      ensures Lookup(stores, storeName, key)
              == if error.Some? then Lookup(old(stores), storeName, key) else None
      ensures SameElsewhere(old(stores), stores, storeName, key)
    {
      if storeName !in stores {
        return None;
      }
      var store := stores[storeName];
      if etag.Some? && etag.value != "" {
        if key !in store {
          return None;
        }
        if store[key].etag != etag.value {
          return Some(EtagMismatch);
        }
      }
      stores := stores[storeName := store - {key}];
      return None;
    }
  }
}
