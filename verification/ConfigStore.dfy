// The config document store, the caches over it and the hub that invalidates them:
// packages/config/store.py, materializer.py (database mode) and notify.py.
module ConfigStore {
  import opened Wrappers
  import opened Json

  /** (namespace, document key). */
  type Key = (string, string)

  datatype Row = Row(key: Key, version: int, content: Json)

  type Docs = map<Key, Row>

  datatype ConfigError = NotAMapping | VersionConflict(key: Key, expected: int) | MissingDocument(key: Key)

  /** The store without caches: compare-and-set when a version is expected, otherwise last write wins. */
  function Upserted(docs: Docs, key: Key, content: Json, expected: Option<int>): (Docs, Result<Row, ConfigError>) {
    if !content.Object? then (docs, Err(NotAMapping))
    else if expected.Some? && (key !in docs || docs[key].version != expected.value) then
      (docs, Err(VersionConflict(key, expected.value)))
    else
      var row := Row(key, if key in docs then docs[key].version + 1 else 1, content);
      (docs[key := row], Ok(row))
  }

  /** What is left of a cache once a namespace, or everything, is refreshed. */
  function Bust(cache: map<Key, Json>, namespace: Option<string>): map<Key, Json> {
    map k | k in cache && namespace.Some? && k.0 != namespace.value :: cache[k]
  }

  /** Every cached entry is the stored content. */
  ghost predicate CacheCoherent(cache: map<Key, Json>, docs: Docs) {
    forall k :: k in cache ==> k in docs && cache[k] == docs[k].content
  }

  /** A write leaves a coherent cache coherent exactly when the cache is refreshed for the namespace,
      does not hold the key, or already holds the content written. */
  lemma WriteKeepsCacheIff(cache: map<Key, Json>, docs: Docs, key: Key, content: Json, expected: Option<int>, refreshed: bool)
    requires CacheCoherent(cache, docs) && Upserted(docs, key, content, expected).1.Ok?
    ensures CacheCoherent(if refreshed then Bust(cache, Some(key.0)) else cache, Upserted(docs, key, content, expected).0) <==>
            refreshed || key !in cache || cache[key] == content
  {
    var next := Upserted(docs, key, content, expected).0;
    if !refreshed && key in cache && cache[key] != content {
      assert key in next && cache[key] != next[key].content;
    }
  }

  datatype Event = Event(key: Key, version: int)

  class InMemoryConfigStore {
    var docs: Docs

    constructor ()
      ensures docs == map[]
    {
      docs := map[];
    }

    method Get(key: Key) returns (row: Option<Row>)
      ensures row == if key in docs then Some(docs[key]) else None
    {
      row := if key in docs then Some(docs[key]) else None;
    }

    /** Write, then publish to the hub if notification is on. */
    method Upsert(hub: ConfigNotifyHub, notify: bool, key: Key, content: Json, expected: Option<int>)
      returns (r: Result<Row, ConfigError>)
      requires hub.Valid()
      modifies this, hub, hub.materializers
      ensures (docs, r) == Upserted(old(docs), key, content, expected)
      ensures hub.Published(notify && r.Ok?, key)
      ensures notify && r.Ok? ==> hub.lastEvent == Some(Event(key, r.value.version))
    {
      if !content.Object? {
        return Err(NotAMapping);
      }
      var version;
      if expected.Some? {
        if key !in docs || docs[key].version != expected.value {
          return Err(VersionConflict(key, expected.value));
        }
        version := expected.value + 1;
      } else if key in docs {
        version := docs[key].version + 1;
      } else {
        version := 1;
      }
      var row := Row(key, version, content);
      docs := docs[key := row];
      if notify {
        hub.PublishLocal(key, version);
      }
      r := Ok(row);
    }
  }

  class ConfigNotifyHub {
    var materializers: seq<ConfigMaterializer>
    var lastEvent: Option<Event>
    var deliveryCount: nat

    ghost predicate Valid()
      reads this
    {
      forall i, j :: 0 <= i < j < |materializers| ==> materializers[i] != materializers[j]
    }

    constructor ()
      ensures Valid() && materializers == [] && lastEvent == None && deliveryCount == 0
    {
      materializers, lastEvent, deliveryCount := [], None, 0;
    }

    method Register(m: ConfigMaterializer)
      requires Valid()
      modifies this`materializers
      ensures Valid() && materializers == if m in old(materializers) then old(materializers) else old(materializers) + [m]
    {
      if m !in materializers {
        materializers := materializers + [m];
      }
    }

    /** What one publication for `key` does, or nothing if `sent` is false. */
    twostate predicate Published(sent: bool, key: Key)
      reads this, materializers
    {
      && materializers == old(materializers)
      && deliveryCount == old(deliveryCount) + (if sent then 1 else 0)
      && (!sent ==> lastEvent == old(lastEvent))
      && (forall m :: m in materializers ==> m.Refreshed(sent, key.0))
    }

    method PublishLocal(key: Key, version: int)
      requires Valid()
      modifies this, materializers
      ensures Published(true, key) && lastEvent == Some(Event(key, version))
    {
      var targets := materializers;
      for i := 0 to |targets|
        invariant materializers == targets && deliveryCount == old(deliveryCount)
        invariant forall j :: 0 <= j < |targets| ==> targets[j].Refreshed(j < i, key.0)
      {
        targets[i].Refresh(Some(key.0));
      }
      lastEvent := Some(Event(key, version));
      deliveryCount := deliveryCount + 1;
    }
  }

  class ConfigMaterializer {
    const store: InMemoryConfigStore
    var cache: map<Key, Json>
    var generation: nat

    constructor (store: InMemoryConfigStore)
      ensures this.store == store && cache == map[] && generation == 0
    {
      this.store := store;
      cache, generation := map[], 0;
    }

    twostate predicate Refreshed(done: bool, namespace: string)
      reads this
    {
      && cache == (if done then Bust(old(cache), Some(namespace)) else old(cache))
      && generation == old(generation) + (if done then 1 else 0)
    }

    method Refresh(namespace: Option<string>)
      modifies this
      ensures cache == Bust(old(cache), namespace) && generation == old(generation) + 1
    {
      generation := generation + 1;
      if namespace.None? {
        cache := map[];
        return;
      }
      cache := map k | k in cache && k.0 != namespace.value :: cache[k];
    }

    /** The cached content, or the stored one, which is then cached. */
    method GetContent(key: Key) returns (r: Result<Json, ConfigError>)
      modifies this`cache
      ensures r == if key in old(cache) then Ok(old(cache)[key])
                   else if key in store.docs then Ok(store.docs[key].content)
                   else Err(MissingDocument(key))
      ensures cache == if r.Ok? then old(cache)[key := r.value] else old(cache)
    {
      if key in cache {
        return Ok(cache[key]);
      }
      var row := store.Get(key);
      if row.None? {
        return Err(MissingDocument(key));
      }
      cache := cache[key := row.value.content];
      r := Ok(row.value.content);
    }

    /** Write through: the store publishes, the own cache takes the content, and the write is published
        again, which empties the namespace in every registered cache, this one included. */
    method UpsertContent(hub: ConfigNotifyHub, notify: bool, key: Key, content: Json, expected: Option<int>)
      returns (r: Result<int, ConfigError>)
      requires hub.Valid()
      modifies this, store, hub, hub.materializers
      ensures var (docs, row) := Upserted(old(store.docs), key, content, expected);
              store.docs == docs && r == (if row.Ok? then Ok(row.value.version) else Err(row.error))
      ensures hub.materializers == old(hub.materializers)
      ensures hub.deliveryCount == old(hub.deliveryCount) + if r.Ok? && notify then 2 else 0
      ensures r.Ok? && notify ==> hub.lastEvent == Some(Event(key, r.value))
      ensures generation == old(generation) + if r.Err? then 0 else if notify && this in hub.materializers then 3 else 1
      ensures r.Err? ==> hub.Published(false, key) && Refreshed(false, key.0)
      ensures r.Ok? && notify ==> forall m :: m in hub.materializers ==> m.cache == Bust(old(m.cache), Some(key.0))
      ensures r.Ok? && !(notify && this in hub.materializers) ==> cache == old(cache)[key := content]
      ensures r.Ok? && !notify ==> forall m :: m in hub.materializers && m != this ==> m.cache == old(m.cache)
    {
      var row := store.Upsert(hub, notify, key, content, expected);
      assert this in hub.materializers ==> Refreshed(notify && row.Ok?, key.0);
      if row.Err? {
        return Err(row.error);
      }
      cache := cache[key := content];
      generation := generation + 1;
      if notify {
        hub.PublishLocal(key, row.value.version);
      }
      r := Ok(row.value.version);
    }
  }
}
