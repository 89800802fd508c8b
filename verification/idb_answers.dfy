/** When an object store accepts a write: told by the map it stands for, its budgets and its unique indexes. */
module IdbAnswers {
  import opened Bytes
  import opened IdbKey
  import opened IdbStore
  import opened IdbStoreLaws
  import opened Wrappers

  /** The key of a write: the one given, or else the store's next number. */
  function KeyOf(store: Store, key: Option<Key>): (k: Key) {
    if key.Some? then key.value else Number(Finite(store.counter as real))
  }

  ghost function Held(store: Store, key: Key): (value: seq<Byte>)
    requires StrictlySorted(store.records)
  {
    if key in Contents(store.records) then Contents(store.records)[key] else []
  }

  /** For every unique index the value has keys, and none of them belongs to a record under another key. */
  ghost predicate IndexKeysAreFree(store: Store, key: Key, value: seq<Byte>, extract: Extract) {
    forall name <- store.indexes :: store.indexes[name].unique ==>
      && extract(value, store.indexes[name]).Some?
      && forall y <- store.records :: y.key != key && extract(y.value, store.indexes[name]).Some? ==>
           DisjointKeys(extract(value, store.indexes[name]).value, extract(y.value, store.indexes[name]).value)
  }

  /**
   * Two MiB a value, a key or a generator, 32 levels and 64 KiB a key, 32 MiB a store, a hundred thousand records, unless
   * the record replaced holds something, and free index keys.
   */
  ghost predicate MayPut(store: Store, key: Option<Key>, value: seq<Byte>, extract: Extract)
    requires StrictlySorted(store.records)
  {
    var (k, held) := (KeyOf(store, key), Held(store, KeyOf(store, key)));
    && |value| <= 2_097_152 && (key.Some? || store.autoIncrement)
    && Shaped(k, 32) && Size(k) <= 65_536
    && Weight(store.records) + |value| <= 33_554_432 + |held|
    && (held != [] || |store.records| < 100_000)
    && IndexKeysAreFree(store, k, value, extract)
  }

  lemma IndexAcceptsFree(store: Store, config: IndexConfig, key: Key, value: seq<Byte>, extract: Extract)
    requires Clean(extract) && NanFree(key) && AllDisjoint(store.records, config, extract)
    ensures IndexAccepts(config, store.records, key, value, extract)
            <==> extract(value, config).Some?
                 && forall y <- store.records :: y.key != key ==>
                      DisjointKeys(extract(value, config).value, extract(y.value, config).value)
  {
    if extract(value, config).Some? {
      forall i | 0 <= i < |store.records|
        ensures KeyEq(store.records[i].key, key) <==> store.records[i].key == key
        ensures Share(extract(value, config).value, extract(store.records[i].value, config).value)
                <==> !DisjointKeys(extract(value, config).value, extract(store.records[i].value, config).value)
      {
        EqualityAgreesWithoutNan(store.records[i].key, key);
        ShareIsOverlap(extract(value, config).value, extract(store.records[i].value, config).value);
      }
    }
  }

  lemma IndexesAcceptFree(store: Store, key: Key, value: seq<Byte>, extract: Extract)
    requires Clean(extract) && NanFree(key) && UniqueOk(store, extract)
    ensures IndexesAccept(store, key, value, extract) <==> IndexKeysAreFree(store, key, value, extract)
  {
    forall name | name in store.indexes && store.indexes[name].unique
      ensures IndexAccepts(store.indexes[name], store.records, key, value, extract)
              <==> extract(value, store.indexes[name]).Some?
                   && forall y <- store.records :: y.key != key ==>
                        DisjointKeys(extract(value, store.indexes[name]).value, extract(y.value, store.indexes[name]).value)
    {
      IndexAcceptsFree(store, store.indexes[name], key, value, extract);
    }
  }

  lemma HeldIsFound(store: Store, key: Key)
    requires StrictlySorted(store.records) && NanFree(key)
    ensures var at := Find(store.records, key);
            && (at < |store.records| <==> key in Contents(store.records))
            && Held(store, key) == if at < |store.records| then store.records[at].value else []
  {
    GetReadsMap(store.records, key);
  }

  lemma {:induction false} HeldWeighs(records: seq<Record>, at: nat)
    requires at < |records|
    ensures |records[at].value| <= Weight(records)
  {
    if at > 0 {
      HeldWeighs(records[1..], at - 1);
    }
  }

  lemma ChecksPass(store: Store, key: Key, value: seq<Byte>, extract: Extract)
    requires Clean(extract) && Inv(store, extract) && NanFree(key)
    ensures WriteError(store, key, value, extract).None?
            <==> && Shaped(key, 32) && Size(key) <= 65_536
                 && Weight(store.records) + |value| <= 33_554_432 + |Held(store, key)|
                 && (Held(store, key) != [] || |store.records| < 100_000)
                 && IndexKeysAreFree(store, key, value, extract)
  {
    KeyBudget(key);
    HeldIsFound(store, key);
    IndexesAcceptFree(store, key, value, extract);
    var at := Find(store.records, key);
    if at < |store.records| {
      HeldWeighs(store.records, at);
    }
  }

  /** `put` succeeds exactly when it may, and answers the key. */
  lemma PutIsAcceptedExactly(store: Store, key: Option<Key>, value: seq<Byte>, extract: Extract)
    requires Clean(extract) && Inv(store, extract) && (key.Some? ==> NanFree(key.value))
    ensures Put(store, key, value, extract).1.Ok? <==> MayPut(store, key, value, extract)
    ensures MayPut(store, key, value, extract) ==> Put(store, key, value, extract).1 == Ok(KeyOf(store, key))
  {
    if |value| <= MAX_RECORD_VALUE_BYTES && (key.Some? || store.autoIncrement) {
      var next := WriteKey(store, key).value.1;
      ChecksPass(next, KeyOf(store, key), value, extract);
    }
  }

  /** `add` succeeds exactly when `put` would and the key is not stored, and then does what `put` does. */
  lemma AddIsAcceptedExactly(store: Store, key: Option<Key>, value: seq<Byte>, extract: Extract)
    requires Clean(extract) && Inv(store, extract) && (key.Some? ==> NanFree(key.value))
    ensures Add(store, key, value, extract).1.Ok?
            <==> MayPut(store, key, value, extract) && KeyOf(store, key) !in Contents(store.records)
    ensures Add(store, key, value, extract).1.Ok? ==> Add(store, key, value, extract) == Put(store, key, value, extract)
  {
    HeldIsFound(store, KeyOf(store, key));
    PutIsAcceptedExactly(store, key, value, extract);
  }
}
