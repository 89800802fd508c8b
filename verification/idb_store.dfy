/** One IndexedDB object store: a sorted record vector with unique indexes and byte budgets. */
module IdbStore {
  import opened Bytes
  import opened IdbKey
  import opened Wrappers

  const MAX_RECORD_VALUE_BYTES := 2 * 1024 * 1024
  const MAX_STORE_VALUE_BYTES := 32 * 1024 * 1024
  const MAX_RECORDS := 100_000
  const MAX_INDEXES := 1024

  datatype Record = Record(key: Key, value: seq<Byte>)

  datatype IndexConfig = IndexConfig(name: seq<Byte>, keyPath: seq<Byte>, unique: bool, multiEntry: bool)

  datatype StoreError =
    | RecordBudget
    | KeyRequired
    | KeyBudgetExceeded(error: KeyError)
    | StoreByteBudget
    | StoreRecordBudget
    | IndexRejected
    | KeyExists
    | IndexNameOrPath
    | IndexBudget
    | IndexExists

  /** Reading a record's index keys out of its JSON text: `None` when the text or the path is unusable. */
  type Extract = (seq<Byte>, IndexConfig) -> Option<seq<Key>>

  /** JSON numbers are finite, so extracted keys hold no NaN. */
  ghost predicate Clean(extract: Extract) {
    forall value, config :: extract(value, config).Some? ==> AllNanFree(extract(value, config).value)
  }

  datatype Store = Store(autoIncrement: bool, counter: nat, records: seq<Record>, indexes: map<seq<Byte>, IndexConfig>)

  // ---- Lookup and order -----------------------------------------------------------------

  /** `position(|r| r.key == key)`; the length when there is none. */
  function Find(records: seq<Record>, key: Key): (i: nat)
    ensures i <= |records|
    ensures i < |records| ==> KeyEq(records[i].key, key)
    ensures forall j :: 0 <= j < i ==> !KeyEq(records[j].key, key)
  {
    if records == [] || KeyEq(records[0].key, key) then 0 else 1 + Find(records[1..], key)
  }

  function Weight(records: seq<Record>): (n: nat) {
    if records == [] then 0 else |records[0].value| + Weight(records[1..])
  }

  function InsertByKey(r: Record, sorted: seq<Record>): (s: seq<Record>) {
    if sorted == [] || Cmp(r.key, sorted[0].key) != Greater then [r] + sorted
    else [sorted[0]] + InsertByKey(r, sorted[1..])
  }

  /** `sort_by(cmp)`: stable. */
  function SortByKey(records: seq<Record>): (s: seq<Record>) {
    if records == [] then [] else InsertByKey(records[0], SortByKey(records[1..]))
  }

  ghost predicate StrictlySorted(records: seq<Record>) {
    forall i, j :: 0 <= i < j < |records| ==> Cmp(records[i].key, records[j].key) == Less
  }

  ghost predicate HasKey(records: seq<Record>, key: Key) {
    exists i :: 0 <= i < |records| && records[i].key == key
  }

  // ---- Index checks ---------------------------------------------------------------------

  predicate Share(a: seq<Key>, b: seq<Key>) {
    exists p <- a, q <- b :: KeyEq(p, q)
  }

  /** One unique index accepts a value when its keys can be read and no record under another key shares one. */
  predicate IndexAccepts(config: IndexConfig, records: seq<Record>, key: Key, value: seq<Byte>, extract: Extract) {
    && extract(value, config).Some?
    && forall i :: 0 <= i < |records| ==>
         KeyEq(records[i].key, key)
         || (extract(records[i].value, config).Some?
             && !Share(extract(value, config).value, extract(records[i].value, config).value))
  }

  predicate IndexesAccept(store: Store, key: Key, value: seq<Byte>, extract: Extract) {
    forall name <- store.indexes ::
      store.indexes[name].unique ==> IndexAccepts(store.indexes[name], store.records, key, value, extract)
  }

  /** `create_index` on a unique index: inserts every record's keys into one ordered set. */
  function SeenFrom(records: seq<Record>, config: IndexConfig, seen: set<Key>, extract: Extract): (ok: bool) {
    if records == [] then true
    else
      var keys := extract(records[0].value, config);
      keys.Some? && Distinct(keys.value) && (forall k <- keys.value :: k !in seen)
      && SeenFrom(records[1..], config, seen + (set k | k in keys.value), extract)
  }

  predicate Distinct(keys: seq<Key>) {
    forall i, j :: 0 <= i < j < |keys| ==> keys[i] != keys[j]
  }

  // ---- Operations -----------------------------------------------------------------------

  /** The key a write uses and the store with its counter advanced when it had to make one. */
  function WriteKey(store: Store, key: Option<Key>): (r: Option<(Key, Store)>) {
    if key.Some? then Some((key.value, store))
    else if store.autoIncrement then Some((Number(Finite(store.counter as real)), store.(counter := store.counter + 1)))
    else None
  }

  /** The checks `put` makes once it has a key, in order. */
  function WriteError(store: Store, key: Key, value: seq<Byte>, extract: Extract): (e: Option<StoreError>) {
    var at := Find(store.records, key);
    var previous := if at < |store.records| then |store.records[at].value| else 0;
    var retained := Weight(store.records);
    var projected := (if retained >= previous then retained - previous else 0) + |value|;
    if KeyBytes(key, 0).Err? then Some(KeyBudgetExceeded(KeyBytes(key, 0).error))
    else if projected > MAX_STORE_VALUE_BYTES then Some(StoreByteBudget)
    else if previous == 0 && |store.records| >= MAX_RECORDS then Some(StoreRecordBudget)
    else if !IndexesAccept(store, key, value, extract) then Some(IndexRejected)
    else None
  }

  function WriteRecord(records: seq<Record>, key: Key, value: seq<Byte>): (s: seq<Record>) {
    var at := Find(records, key);
    if at < |records| then records[at := records[at].(value := value)]
    else SortByKey(records + [Record(key, value)])
  }

  function Put(store: Store, key: Option<Key>, value: seq<Byte>, extract: Extract)
    : (r: (Store, Result<Key, StoreError>))
  {
    if |value| > MAX_RECORD_VALUE_BYTES then (store, Err(RecordBudget))
    else
      var target := WriteKey(store, key);
      if target.None? then (store, Err(KeyRequired))
      else
        var (actual, next) := target.value;
        var error := WriteError(next, actual, value, extract);
        if error.Some? then (next, Err(error.value))
        else (next.(records := WriteRecord(next.records, actual, value)), Ok(actual))
  }

  function Add(store: Store, key: Option<Key>, value: seq<Byte>, extract: Extract)
    : (r: (Store, Result<Key, StoreError>))
  {
    var target := WriteKey(store, key);
    if target.None? then (store, Err(KeyRequired))
    else if Find(store.records, target.value.0) < |store.records| then (store, Err(KeyExists))
    else Put(store, key, value, extract)
  }

  function Delete(store: Store, key: Key): (r: (Store, bool)) {
    var at := Find(store.records, key);
    if at < |store.records|
    then (store.(records := store.records[..at] + store.records[at + 1..]), true)
    else (store, false)
  }

  function Clear(store: Store): (r: Store) {
    store.(records := [])
  }

  function CreateIndex(store: Store, config: IndexConfig, extract: Extract): (r: (Store, Option<StoreError>)) {
    if config.name == [] || |config.name| > 256 || config.keyPath == [] then (store, Some(IndexNameOrPath))
    else if |store.indexes| >= MAX_INDEXES && config.name !in store.indexes then (store, Some(IndexBudget))
    else if config.name in store.indexes then (store, Some(IndexExists))
    else if config.unique && !SeenFrom(store.records, config, {}, extract) then (store, Some(IndexRejected))
    else (store.(indexes := store.indexes[config.name := config]), None)
  }

  function DeleteIndex(store: Store, name: seq<Byte>): (r: (Store, bool)) {
    (store.(indexes := store.indexes - {name}), name in store.indexes)
  }

  /** The object store as the program runs it: every method updates its fields in place. */
  class ObjectStore {
    const autoIncrement: bool
    const extract: Extract
    var counter: nat
    var records: seq<Record>
    var indexes: map<seq<Byte>, IndexConfig>

    constructor (autoIncrement: bool, extract: Extract)
      ensures State() == Store(autoIncrement, 1, [], map[])
      ensures this.extract == extract
    {
      this.autoIncrement := autoIncrement;
      this.extract := extract;
      counter, records, indexes := 1, [], map[];
    }

    function State(): (s: Store)
      reads this
    {
      Store(autoIncrement, counter, records, indexes)
    }

    method FindRecord(key: Key) returns (at: nat)
      ensures at == Find(records, key)
    {
      at := 0;
      assert records[0..] == records;
      while at < |records| && !KeyEq(records[at].key, key)
        invariant at <= |records|
        invariant Find(records, key) == at + Find(records[at..], key)
      {
        assert records[at..][1..] == records[at + 1..];
        at := at + 1;
      }
    }

    method RetainedBytes() returns (n: nat)
      ensures n == Weight(records)
    {
      n := 0;
      assert records[0..] == records;
      for i := 0 to |records|
        invariant n + Weight(records[i..]) == Weight(records)
      {
        assert records[i..][1..] == records[i + 1..];
        n := n + |records[i].value|;
      }
    }

    /** `validate_indexes`: every unique index against every record under another key. */
    method ValidateIndexes(key: Key, value: seq<Byte>) returns (ok: bool)
      ensures ok <==> IndexesAccept(State(), key, value, extract)
    {
      var names := indexes.Keys;
      while names != {}
        invariant names <= indexes.Keys
        invariant forall name <- indexes.Keys - names ::
                    indexes[name].unique ==> IndexAccepts(indexes[name], records, key, value, extract)
        decreases |names|
      {
        var name :| name in names;
        names := names - {name};
        if indexes[name].unique {
          var proposed := extract(value, indexes[name]);
          if proposed.None? {
            return false;
          }
          for i := 0 to |records|
            invariant forall j :: 0 <= j < i ==>
                        KeyEq(records[j].key, key)
                        || (extract(records[j].value, indexes[name]).Some?
                            && !Share(proposed.value, extract(records[j].value, indexes[name]).value))
          {
            if !KeyEq(records[i].key, key) {
              var existing := extract(records[i].value, indexes[name]);
              if existing.None? || Share(proposed.value, existing.value) {
                return false;
              }
            }
          }
        }
      }
      return true;
    }

    method PutRecord(key: Option<Key>, value: seq<Byte>) returns (r: Result<Key, StoreError>)
      modifies this
      ensures (State(), r) == Put(old(State()), key, value, extract)
    {
      if |value| > MAX_RECORD_VALUE_BYTES {
        return Err(RecordBudget);
      }
      var actual: Key;
      if key.Some? {
        actual := key.value;
      } else if autoIncrement {
        actual := Number(Finite(counter as real));
        counter := counter + 1;
      } else {
        return Err(KeyRequired);
      }
      var size := KeyBytes(actual, 0);
      if size.Err? {
        return Err(KeyBudgetExceeded(size.error));
      }
      var at := FindRecord(actual);
      var previous := if at < |records| then |records[at].value| else 0;
      var retained := RetainedBytes();
      var projected := (if retained >= previous then retained - previous else 0) + |value|;
      if projected > MAX_STORE_VALUE_BYTES {
        return Err(StoreByteBudget);
      }
      if previous == 0 && |records| >= MAX_RECORDS {
        return Err(StoreRecordBudget);
      }
      var accepted := ValidateIndexes(actual, value);
      if !accepted {
        return Err(IndexRejected);
      }
      if at < |records| {
        records := records[at := records[at].(value := value)];
      } else {
        records := SortByKey(records + [Record(actual, value)]);
      }
      return Ok(actual);
    }

    method AddRecord(key: Option<Key>, value: seq<Byte>) returns (r: Result<Key, StoreError>)
      modifies this
      ensures (State(), r) == Add(old(State()), key, value, extract)
    {
      if key.None? && !autoIncrement {
        return Err(KeyRequired);
      }
      var actual := if key.Some? then key.value else Number(Finite(counter as real));
      var at := FindRecord(actual);
      if at < |records| {
        return Err(KeyExists);
      }
      r := PutRecord(key, value);
    }

    method DeleteRecord(key: Key) returns (deleted: bool)
      modifies this
      ensures (State(), deleted) == Delete(old(State()), key)
    {
      var at := FindRecord(key);
      deleted := at < |records|;
      if deleted {
        records := records[..at] + records[at + 1..];
      }
    }

    method ClearRecords()
      modifies this
      ensures State() == Clear(old(State()))
    {
      records := [];
    }

    /** The uniqueness scan of `create_index`. */
    method ScanUnique(config: IndexConfig) returns (ok: bool)
      ensures ok == SeenFrom(records, config, {}, extract)
    {
      var seen: set<Key> := {};
      assert records[0..] == records;
      for i := 0 to |records|
        invariant SeenFrom(records, config, {}, extract) == SeenFrom(records[i..], config, seen, extract)
      {
        assert records[i..][1..] == records[i + 1..];
        var keys := extract(records[i].value, config);
        if keys.None? {
          return false;
        }
        ghost var before := seen;
        for j := 0 to |keys.value|
          invariant seen == before + (set k | k in keys.value[..j])
          invariant Distinct(keys.value[..j]) && forall k <- keys.value[..j] :: k !in before
        {
          if keys.value[j] in seen {
            assert keys.value[j] in before || exists m :: 0 <= m < j && keys.value[m] == keys.value[j];
            return false;
          }
          assert keys.value[..j + 1] == keys.value[..j] + [keys.value[j]];
          seen := seen + {keys.value[j]};
        }
        assert keys.value[..|keys.value|] == keys.value;
      }
      return true;
    }

    method AddIndex(config: IndexConfig) returns (error: Option<StoreError>)
      modifies this
      ensures (State(), error) == CreateIndex(old(State()), config, extract)
    {
      if config.name == [] || |config.name| > 256 || config.keyPath == [] {
        return Some(IndexNameOrPath);
      }
      if |indexes| >= MAX_INDEXES && config.name !in indexes {
        return Some(IndexBudget);
      }
      if config.name in indexes {
        return Some(IndexExists);
      }
      if config.unique {
        var ok := ScanUnique(config);
        if !ok {
          return Some(IndexRejected);
        }
      }
      indexes := indexes[config.name := config];
      return None;
    }

    method RemoveIndex(name: seq<Byte>) returns (removed: bool)
      modifies this
      ensures (State(), removed) == DeleteIndex(old(State()), name)
    {
      removed := name in indexes;
      indexes := indexes - {name};
    }
  }
}
