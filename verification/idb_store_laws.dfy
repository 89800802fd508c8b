/** What every run of object-store operations keeps: a strictly sorted vector that stands for a map. */
module IdbStoreLaws {
  import opened Bytes
  import opened IdbKey
  import opened IdbStore
  import opened Wrappers

  // ---- Sorting --------------------------------------------------------------------------

  ghost predicate DistinctKeys(records: seq<Record>) {
    forall i, j :: 0 <= i < j < |records| ==> records[i].key != records[j].key
  }

  lemma {:induction false} InsertAbove(low: Key, r: Record, sorted: seq<Record>)
    requires Cmp(low, r.key) == Less && forall k :: 0 <= k < |sorted| ==> Cmp(low, sorted[k].key) == Less
    ensures forall k :: 0 <= k < |InsertByKey(r, sorted)| ==> Cmp(low, InsertByKey(r, sorted)[k].key) == Less
  {
    if sorted != [] && Cmp(r.key, sorted[0].key) == Greater {
      InsertAbove(low, r, sorted[1..]);
    }
  }

  lemma ConsStrict(r: Record, sorted: seq<Record>)
    requires StrictlySorted(sorted) && forall k :: 0 <= k < |sorted| ==> Cmp(r.key, sorted[k].key) == Less
    ensures StrictlySorted([r] + sorted)
  {
  }

  lemma {:induction false} InsertStrict(r: Record, sorted: seq<Record>)
    requires StrictlySorted(sorted) && !HasKey(sorted, r.key)
    ensures StrictlySorted(InsertByKey(r, sorted))
    ensures multiset(InsertByKey(r, sorted)) == multiset{r} + multiset(sorted)
  {
    InsertPermutes(r, sorted);
    if sorted == [] {
      ConsStrict(r, sorted);
      return;
    }
    CmpLaws(r.key, sorted[0].key);
    if Cmp(r.key, sorted[0].key) != Greater {
      assert sorted[0].key != r.key;
      forall j | 0 <= j < |sorted| ensures Cmp(r.key, sorted[j].key) == Less {
        CmpComposes(r.key, sorted[0].key, sorted[j].key);
      }
      ConsStrict(r, sorted);
    } else {
      assert forall i :: 0 <= i < |sorted[1..]| ==> sorted[1..][i] == sorted[i + 1];
      InsertStrict(r, sorted[1..]);
      InsertAbove(sorted[0].key, r, sorted[1..]);
      ConsStrict(sorted[0], InsertByKey(r, sorted[1..]));
    }
  }

  lemma {:induction false} SortPermutes(records: seq<Record>)
    ensures multiset(SortByKey(records)) == multiset(records)
  {
    if records != [] {
      SortPermutes(records[1..]);
      InsertPermutes(records[0], SortByKey(records[1..]));
      assert records == [records[0]] + records[1..];
    }
  }

  lemma {:induction false} InsertPermutes(r: Record, s: seq<Record>)
    ensures multiset(InsertByKey(r, s)) == multiset{r} + multiset(s)
  {
    if s != [] && Cmp(r.key, s[0].key) == Greater {
      InsertPermutes(r, s[1..]);
      assert s == [s[0]] + s[1..];
    }
  }

  lemma {:induction false} SortStrict(records: seq<Record>)
    requires DistinctKeys(records)
    ensures StrictlySorted(SortByKey(records))
  {
    if records != [] {
      SortStrict(records[1..]);
      SortPermutes(records[1..]);
      var tail := SortByKey(records[1..]);
      forall i | 0 <= i < |tail| ensures tail[i].key != records[0].key {
        assert tail[i] in multiset(tail);
        assert tail[i] in records[1..];
      }
      InsertStrict(records[0], tail);
    }
  }

  /** In a strictly sorted vector a key, and so a record, occurs once. */
  lemma StrictMeansDistinct(records: seq<Record>)
    requires StrictlySorted(records)
    ensures DistinctKeys(records)
  {
    forall i, j | 0 <= i < j < |records| ensures records[i].key != records[j].key {
      CmpLaws(records[i].key, records[j].key);
    }
  }

  lemma FindByKey(records: seq<Record>, key: Key)
    ensures Find(records, key) < |records| <==> NanFree(key) && HasKey(records, key)
    ensures Find(records, key) < |records| ==> records[Find(records, key)].key == key
  {
    forall i | 0 <= i < |records| ensures KeyEq(records[i].key, key) <==> records[i].key == key && NanFree(key) {
      EqualityAgreesWithoutNan(records[i].key, key);
    }
  }

  /** Writing under an unused key, or replacing a value, keeps the vector strictly sorted. */
  lemma WriteStrict(records: seq<Record>, key: Key, value: seq<Byte>)
    requires StrictlySorted(records)
    requires NanFree(key) || !HasKey(records, key)
    ensures StrictlySorted(WriteRecord(records, key, value))
  {
    FindByKey(records, key);
    if Find(records, key) == |records| {
      StrictMeansDistinct(records);
      SortStrict(records + [Record(key, value)]);
    }
  }

  /** Writing a NaN key a second time stores it twice: the search never finds it. */
  lemma WriteNotStrict(records: seq<Record>, key: Key, value: seq<Byte>)
    requires StrictlySorted(records)
    requires !NanFree(key) && HasKey(records, key)
    ensures !StrictlySorted(WriteRecord(records, key, value))
  {
    FindByKey(records, key);
    var added := Record(key, value);
    var all := records + [added];
    var s := SortByKey(all);
    SortPermutes(all);
    var i :| 0 <= i < |records| && records[i].key == key;
    assert records[i] in multiset(s) && added in multiset(s);
    var p :| 0 <= p < |s| && s[p] == records[i];
    var q :| 0 <= q < |s| && s[q] == added;
    if p == q {
      Twice(records, i, added);
      q := SecondPosition(s, p);
    }
    CmpLaws(s[p].key, s[q].key);
    CmpLaws(s[q].key, s[p].key);
  }

  lemma Twice(records: seq<Record>, i: nat, r: Record)
    requires i < |records| && records[i] == r
    ensures multiset(records + [r])[r] >= 2
  {
    assert records + [r] == records[..i] + [r] + (records[i + 1..] + [r]);
  }

  lemma SecondPosition(s: seq<Record>, p: nat) returns (q: nat)
    requires p < |s| && multiset(s)[s[p]] >= 2
    ensures q < |s| && q != p && s[q] == s[p]
  {
    assert s == s[..p] + [s[p]] + s[p + 1..];
    if s[p] in s[..p] {
      q :| 0 <= q < p && s[q] == s[p];
    } else {
      assert s[p] in multiset(s[p + 1..]);
      var k :| 0 <= k < |s[p + 1..]| && s[p + 1..][k] == s[p];
      q := p + 1 + k;
    }
  }

  /**
   * A successful write keeps the vector strictly sorted if and only if the key holds no NaN or is
   * not stored yet.
   */
  lemma WriteKeepsOrder(records: seq<Record>, key: Key, value: seq<Byte>)
    requires StrictlySorted(records)
    ensures StrictlySorted(WriteRecord(records, key, value)) <==> NanFree(key) || !HasKey(records, key)
  {
    if NanFree(key) || !HasKey(records, key) {
      WriteStrict(records, key, value);
    } else {
      WriteNotStrict(records, key, value);
    }
  }

  /** A concrete failure: the same NaN key put twice leaves two records under one key. */
  lemma NanKeyIsStoredTwice(extract: Extract)
    ensures var store := Store(false, 1, [], map[]);
            var once := Put(store, Some(Number(NaN)), [], extract).0;
            var twice := Put(once, Some(Number(NaN)), [], extract);
            twice.1.Ok? && twice.0.records == [Record(Number(NaN), []), Record(Number(NaN), [])]
  {
    var r := Record(Number(NaN), []);
    assert [r][1..] == [] && [r, r][1..] == [r] && [] + [r] == [r] && [r] + [r] == [r, r];
    assert SortByKey([r]) == [r];
    assert SortByKey([r, r]) == [r, r];
    var store := Store(false, 1, [], map[]);
    assert Put(store, Some(Number(NaN)), [], extract).0.records == [r];
  }

  // ---- The map a store stands for -------------------------------------------------------

  ghost function Contents(records: seq<Record>): (m: map<Key, seq<Byte>>)
    requires StrictlySorted(records)
  {
    StrictMeansDistinct(records);
    map i | 0 <= i < |records| :: records[i].key := records[i].value
  }

  lemma ContentsHas(records: seq<Record>, key: Key, value: seq<Byte>)
    requires StrictlySorted(records)
    ensures Record(key, value) in records <==> key in Contents(records) && Contents(records)[key] == value
  {
    StrictMeansDistinct(records);
    if Record(key, value) in records {
      var i :| 0 <= i < |records| && records[i] == Record(key, value);
      assert records[i].key in Contents(records);
    }
  }

  /** Two strictly sorted vectors whose records correspond stand for corresponding maps. */
  lemma ContentsByRecords(records: seq<Record>, m: map<Key, seq<Byte>>)
    requires StrictlySorted(records)
    requires forall r <- records :: r.key in m && m[r.key] == r.value
    requires forall k <- m :: Record(k, m[k]) in records
    ensures Contents(records) == m
  {
    forall k | k in m ensures k in Contents(records) && Contents(records)[k] == m[k] {
      ContentsHas(records, k, m[k]);
    }
  }

  /** The records of `after` are those of `before` under other keys, and `added`. */
  ghost predicate Rewrites(before: seq<Record>, after: seq<Record>, key: Key, added: set<Record>) {
    forall x :: x in after <==> x in added || (x in before && x.key != key)
  }

  lemma ReplaceRewrites(records: seq<Record>, at: nat, value: seq<Byte>)
    requires StrictlySorted(records) && at < |records|
    ensures Rewrites(records, records[at := records[at].(value := value)], records[at].key,
                     {Record(records[at].key, value)})
  {
    StrictMeansDistinct(records);
    var after := records[at := records[at].(value := value)];
    forall x | x in records && x.key != records[at].key ensures x in after {
      var i :| 0 <= i < |records| && records[i] == x;
      assert after[i] == x;
    }
    assert after[at] in after;
  }

  lemma AppendRewrites(records: seq<Record>, key: Key, value: seq<Byte>)
    requires !HasKey(records, key)
    ensures Rewrites(records, SortByKey(records + [Record(key, value)]), key, {Record(key, value)})
  {
    var all := records + [Record(key, value)];
    SortPermutes(all);
    forall x ensures x in SortByKey(all) <==> x == Record(key, value) || (x in records && x.key != key) {
      assert x in multiset(SortByKey(all)) <==> x in multiset(all);
    }
  }

  lemma RemoveRewrites(records: seq<Record>, at: nat)
    requires StrictlySorted(records) && at < |records|
    ensures Rewrites(records, records[..at] + records[at + 1..], records[at].key, {})
  {
    StrictMeansDistinct(records);
    var after := records[..at] + records[at + 1..];
    forall x | x in records && x.key != records[at].key ensures x in after {
      var i :| 0 <= i < |records| && records[i] == x;
      assert after[if i < at then i else i - 1] == x;
    }
  }

  lemma RewritesIsMapUpdate(before: seq<Record>, after: seq<Record>, key: Key, value: seq<Byte>)
    requires StrictlySorted(before) && StrictlySorted(after)
    requires Rewrites(before, after, key, {Record(key, value)})
    ensures Contents(after) == Contents(before)[key := value]
  {
    var m := Contents(before)[key := value];
    forall r | r in after ensures r.key in m && m[r.key] == r.value {
      ContentsHas(before, r.key, r.value);
    }
    forall k | k in m ensures Record(k, m[k]) in after {
      ContentsHas(before, k, m[k]);
    }
    ContentsByRecords(after, m);
  }

  lemma RewritesIsMapRemoval(before: seq<Record>, after: seq<Record>, key: Key)
    requires StrictlySorted(before) && StrictlySorted(after)
    requires Rewrites(before, after, key, {})
    ensures Contents(after) == Contents(before) - {key}
  {
    var m := Contents(before) - {key};
    forall r | r in after ensures r.key in m && m[r.key] == r.value {
      ContentsHas(before, r.key, r.value);
    }
    forall k | k in m ensures Record(k, m[k]) in after {
      ContentsHas(before, k, m[k]);
    }
    ContentsByRecords(after, m);
  }

  lemma WriteRewrites(records: seq<Record>, key: Key, value: seq<Byte>)
    requires StrictlySorted(records) && NanFree(key)
    ensures Rewrites(records, WriteRecord(records, key, value), key, {Record(key, value)})
  {
    FindByKey(records, key);
    if Find(records, key) < |records| {
      ReplaceRewrites(records, Find(records, key), value);
    } else {
      AppendRewrites(records, key, value);
    }
  }

  /** A write under a NaN-free key is a map update: that key gets the value, every other key keeps its own. */
  lemma WriteIsMapUpdate(records: seq<Record>, key: Key, value: seq<Byte>)
    requires StrictlySorted(records) && NanFree(key)
    ensures StrictlySorted(WriteRecord(records, key, value))
    ensures Contents(WriteRecord(records, key, value)) == Contents(records)[key := value]
  {
    WriteStrict(records, key, value);
    WriteRewrites(records, key, value);
    RewritesIsMapUpdate(records, WriteRecord(records, key, value), key, value);
  }

  lemma KeyInContents(records: seq<Record>, key: Key)
    requires StrictlySorted(records)
    ensures key in Contents(records) <==> HasKey(records, key)
  {
  }

  lemma RemovalStrict(records: seq<Record>, at: nat)
    requires StrictlySorted(records) && at < |records|
    ensures StrictlySorted(records[..at] + records[at + 1..])
  {
  }

  /** `delete` is a map removal, and finds exactly the NaN-free stored keys. */
  lemma DeleteIsMapRemoval(store: Store, key: Key)
    requires StrictlySorted(store.records)
    ensures StrictlySorted(Delete(store, key).0.records)
    ensures Delete(store, key).1 <==> NanFree(key) && key in Contents(store.records)
    ensures Contents(Delete(store, key).0.records)
            == if Delete(store, key).1 then Contents(store.records) - {key} else Contents(store.records)
  {
    FoundExactly(store.records, key);
    var at := Find(store.records, key);
    if at < |store.records| {
      RemovalIsMapRemoval(store.records, key, at);
      DeleteHits(store, key, at);
    } else {
      DeleteMisses(store, key);
    }
  }

  lemma DeleteHits(store: Store, key: Key, at: nat)
    requires at == Find(store.records, key) < |store.records|
    ensures Delete(store, key).0.records == store.records[..at] + store.records[at + 1..] && Delete(store, key).1
  {
  }

  lemma DeleteMisses(store: Store, key: Key)
    requires Find(store.records, key) >= |store.records|
    ensures Delete(store, key) == (store, false)
  {
  }

  lemma FoundExactly(records: seq<Record>, key: Key)
    requires StrictlySorted(records)
    ensures Find(records, key) < |records| <==> NanFree(key) && key in Contents(records)
    ensures Find(records, key) < |records| ==> records[Find(records, key)].key == key
  {
    FindByKey(records, key);
    KeyInContents(records, key);
  }

  lemma RemovalIsMapRemoval(records: seq<Record>, key: Key, at: nat)
    requires StrictlySorted(records) && at < |records| && records[at].key == key
    ensures var left := records[..at] + records[at + 1..];
            StrictlySorted(left) && Contents(left) == Contents(records) - {key}
  {
    RemoveRewrites(records, at);
    RemovalStrict(records, at);
    RewritesIsMapRemoval(records, records[..at] + records[at + 1..], key);
  }

  // ---- Budgets --------------------------------------------------------------------------

  lemma {:induction false} WeightAppends(a: seq<Record>, b: seq<Record>)
    ensures Weight(a + b) == Weight(a) + Weight(b)
  {
    if a == [] {
      assert a + b == b;
    } else {
      WeightAppends(a[1..], b);
      assert (a + b)[1..] == a[1..] + b;
    }
  }

  lemma WeightOfOne(r: Record)
    ensures Weight([r]) == |r.value|
  {
    assert [r][1..] == [];
  }

  lemma {:induction false} SortKeepsWeight(records: seq<Record>)
    ensures Weight(SortByKey(records)) == Weight(records)
  {
    if records != [] {
      SortKeepsWeight(records[1..]);
      InsertWeight(records[0], SortByKey(records[1..]));
    }
  }

  lemma {:induction false} InsertWeight(r: Record, s: seq<Record>)
    ensures Weight(InsertByKey(r, s)) == |r.value| + Weight(s)
  {
    if s == [] || Cmp(r.key, s[0].key) != Greater {
      assert ([r] + s)[1..] == s;
    } else {
      InsertWeight(r, s[1..]);
      assert ([s[0]] + InsertByKey(r, s[1..]))[1..] == InsertByKey(r, s[1..]);
    }
  }

  lemma SplitWeight(records: seq<Record>, at: nat)
    requires at < |records|
    ensures Weight(records) == Weight(records[..at]) + |records[at].value| + Weight(records[at + 1..])
  {
    assert records == records[..at] + ([records[at]] + records[at + 1..]);
    WeightAppends(records[..at], [records[at]] + records[at + 1..]);
    WeightAppends([records[at]], records[at + 1..]);
    WeightOfOne(records[at]);
  }

  lemma WriteWeight(records: seq<Record>, key: Key, value: seq<Byte>)
    ensures var at := Find(records, key);
            Weight(WriteRecord(records, key, value))
            == Weight(records) - (if at < |records| then |records[at].value| else 0) + |value|
  {
    var at := Find(records, key);
    if at < |records| {
      var written := WriteRecord(records, key, value);
      SplitWeight(records, at);
      SplitWeight(written, at);
      assert written[..at] == records[..at] && written[at + 1..] == records[at + 1..];
    } else {
      SortKeepsWeight(records + [Record(key, value)]);
      WeightAppends(records, [Record(key, value)]);
      WeightOfOne(Record(key, value));
    }
  }

  lemma WriteCount(records: seq<Record>, key: Key, value: seq<Byte>)
    ensures |WriteRecord(records, key, value)| == |records| + if Find(records, key) < |records| then 0 else 1
  {
    var all := records + [Record(key, value)];
    SortPermutes(all);
    assert |SortByKey(all)| == |multiset(SortByKey(all))| == |multiset(all)| == |all|;
  }

  // ---- Unique indexes -------------------------------------------------------------------

  ghost predicate DisjointKeys(a: seq<Key>, b: seq<Key>) {
    forall k <- a :: k !in b
  }

  /** The index keys of every record can be read, and records under different keys share none. */
  ghost predicate AllDisjoint(records: seq<Record>, config: IndexConfig, extract: Extract) {
    && (forall x <- records :: extract(x.value, config).Some?)
    && (forall x <- records, y <- records :: x.key != y.key ==>
          DisjointKeys(extract(x.value, config).value, extract(y.value, config).value))
  }

  ghost predicate UniqueOk(store: Store, extract: Extract) {
    forall name <- store.indexes ::
      store.indexes[name].unique ==> AllDisjoint(store.records, store.indexes[name], extract)
  }

  lemma {:induction false} CleanKeys(keys: seq<Key>, k: Key)
    requires AllNanFree(keys) && k in keys
    ensures NanFree(k)
  {
    if k != keys[0] {
      CleanKeys(keys[1..], k);
    }
  }

  lemma ShareIsOverlap(a: seq<Key>, b: seq<Key>)
    requires AllNanFree(a)
    ensures Share(a, b) <==> !DisjointKeys(a, b)
  {
    forall p, q | p in a && q in b ensures KeyEq(p, q) <==> p == q {
      CleanKeys(a, p);
      EqualityAgreesWithoutNan(p, q);
    }
    if !DisjointKeys(a, b) {
      var k :| k in a && k in b;
      assert KeyEq(k, k);
    }
  }

  /** An accepted write keeps one unique index disjoint. */
  lemma AcceptedWriteDisjoint(records: seq<Record>, config: IndexConfig, key: Key, value: seq<Byte>, extract: Extract)
    requires Clean(extract) && StrictlySorted(records) && NanFree(key)
    requires AllDisjoint(records, config, extract) && IndexAccepts(config, records, key, value, extract)
    ensures AllDisjoint(WriteRecord(records, key, value), config, extract)
  {
    WriteRewrites(records, key, value);
    var written, keys := WriteRecord(records, key, value), extract(value, config).value;
    forall y | y in records && y.key != key
      ensures DisjointKeys(keys, extract(y.value, config).value)
      ensures DisjointKeys(extract(y.value, config).value, keys)
    {
      EqualityAgreesWithoutNan(y.key, key);
      ShareIsOverlap(keys, extract(y.value, config).value);
    }
  }

  /** Every record has distinct keys for the index, none of them in `seen`. */
  predicate Fresh(records: seq<Record>, config: IndexConfig, seen: set<Key>, extract: Extract) {
    forall i :: 0 <= i < |records| ==> FreshKeys(extract(records[i].value, config), seen)
  }

  predicate FreshKeys(keys: Option<seq<Key>>, seen: set<Key>) {
    && keys.Some? && (forall k <- keys.value :: k !in seen)
    && forall i, j :: 0 <= i < j < |keys.value| ==> keys.value[i] != keys.value[j]
  }

  ghost predicate Apart(records: seq<Record>, config: IndexConfig, i: nat, j: nat, extract: Extract)
    requires i < |records| && j < |records|
  {
    var a, b := extract(records[i].value, config), extract(records[j].value, config);
    a.Some? && b.Some? && DisjointKeys(a.value, b.value)
  }

  ghost predicate AllApart(records: seq<Record>, config: IndexConfig, extract: Extract) {
    forall i, j :: 0 <= i < j < |records| ==> Apart(records, config, i, j, extract)
  }

  lemma FreshBeyond(records: seq<Record>, config: IndexConfig, seen: set<Key>, extract: Extract)
    requires records != [] && FreshKeys(extract(records[0].value, config), seen)
    ensures var keys := extract(records[0].value, config).value;
            Fresh(records, config, seen, extract) && AllApart(records, config, extract)
            <==> Fresh(records[1..], config, seen + (set k | k in keys), extract) && AllApart(records[1..], config, extract)
  {
    var keys, rest := extract(records[0].value, config).value, records[1..];
    var more := seen + (set k | k in keys);
    assert forall j :: 0 <= j < |rest| ==> rest[j] == records[j + 1];
    assert forall i, j :: 0 <= i < j < |rest| ==>
      (Apart(rest, config, i, j, extract) <==> Apart(records, config, i + 1, j + 1, extract));
    assert forall j :: 0 <= j < |rest| ==>
      (FreshKeys(extract(rest[j].value, config), more)
       <==> FreshKeys(extract(records[j + 1].value, config), seen) && Apart(records, config, 0, j + 1, extract));
    if Fresh(rest, config, more, extract) && AllApart(rest, config, extract) {
      forall i, j | 0 <= i < j < |records| ensures Apart(records, config, i, j, extract) {
        if i > 0 {
          assert Apart(rest, config, i - 1, j - 1, extract);
        } else {
          assert FreshKeys(extract(rest[j - 1].value, config), more);
        }
      }
      forall i | 0 <= i < |records| ensures FreshKeys(extract(records[i].value, config), seen) {
        if i > 0 {
          assert FreshKeys(extract(rest[i - 1].value, config), more);
        }
      }
    }
  }

  /** The scan of `create_index` succeeds exactly when every record's keys are distinct, unseen, and no other record's. */
  lemma {:induction false} ScanDecides(records: seq<Record>, config: IndexConfig, seen: set<Key>, extract: Extract)
    ensures SeenFrom(records, config, seen, extract)
            <==> Fresh(records, config, seen, extract) && AllApart(records, config, extract)
  {
    if records != [] && FreshKeys(extract(records[0].value, config), seen) {
      FreshBeyond(records, config, seen, extract);
      ScanDecides(records[1..], config, seen + (set k | k in extract(records[0].value, config).value), extract);
    }
  }

  lemma CreatedIndexDisjoint(records: seq<Record>, config: IndexConfig, extract: Extract)
    requires SeenFrom(records, config, {}, extract)
    ensures AllDisjoint(records, config, extract)
  {
    ScanDecides(records, config, {}, extract);
    forall x, y | x in records && y in records && x.key != y.key
      ensures DisjointKeys(extract(x.value, config).value, extract(y.value, config).value)
    {
      var i: nat :| i < |records| && records[i] == x;
      var j: nat :| j < |records| && records[j] == y;
      assert if i < j then Apart(records, config, i, j, extract) else Apart(records, config, j, i, extract);
    }
    forall x | x in records ensures extract(x.value, config).Some? {
      var i: nat :| i < |records| && records[i] == x;
      assert FreshKeys(extract(records[i].value, config), {});
    }
  }

  // ---- Runs -----------------------------------------------------------------------------

  datatype Op =
    | PutOp(key: Option<Key>, value: seq<Byte>)
    | AddOp(key: Option<Key>, value: seq<Byte>)
    | DeleteOp(target: Key)
    | ClearOp
    | CreateIndexOp(config: IndexConfig)
    | DeleteIndexOp(name: seq<Byte>)

  function Step(store: Store, op: Op, extract: Extract): (s: Store) {
    match op
    case PutOp(key, value) => Put(store, key, value, extract).0
    case AddOp(key, value) => Add(store, key, value, extract).0
    case DeleteOp(key) => Delete(store, key).0
    case ClearOp => Clear(store)
    case CreateIndexOp(config) => CreateIndex(store, config, extract).0
    case DeleteIndexOp(name) => DeleteIndex(store, name).0
  }

  function Run(store: Store, ops: seq<Op>, extract: Extract): (s: Store) {
    if ops == [] then store else Step(Run(store, ops[..|ops| - 1], extract), ops[|ops| - 1], extract)
  }

  predicate WritesNoNan(op: Op) {
    (op.PutOp? || op.AddOp?) && op.key.Some? ==> NanFree(op.key.value)
  }

  /** What one call does to the map the store stands for, going only by the call and its answer. */
  function MapEffect(m: map<Key, seq<Byte>>, store: Store, op: Op, extract: Extract): (r: map<Key, seq<Byte>>) {
    match op
    case PutOp(key, value) =>
      var answer := Put(store, key, value, extract).1;
      if answer.Ok? then m[answer.value := value] else m
    case AddOp(key, value) =>
      var answer := Add(store, key, value, extract).1;
      if answer.Ok? then m[answer.value := value] else m
    case DeleteOp(key) => if Delete(store, key).1 then m - {key} else m
    case ClearOp => map[]
    case _ => m
  }

  function MapRun(m: map<Key, seq<Byte>>, store: Store, ops: seq<Op>, extract: Extract): (r: map<Key, seq<Byte>>) {
    if ops == [] then m
    else MapEffect(MapRun(m, store, ops[..|ops| - 1], extract), Run(store, ops[..|ops| - 1], extract),
                   ops[|ops| - 1], extract)
  }

  ghost predicate Inv(store: Store, extract: Extract) {
    && StrictlySorted(store.records)
    && |store.records| <= MAX_RECORDS
    && Weight(store.records) <= MAX_STORE_VALUE_BYTES
    && |store.indexes| <= MAX_INDEXES
    && UniqueOk(store, extract)
  }

  lemma PutKeeps(store: Store, key: Option<Key>, value: seq<Byte>, extract: Extract)
    requires Clean(extract) && Inv(store, extract) && (key.Some? ==> NanFree(key.value))
    ensures var (next, answer) := Put(store, key, value, extract);
            && Inv(next, extract) && next.indexes == store.indexes
            && (answer.Err? ==> next.records == store.records)
            && (answer.Ok? ==> Contents(next.records) == Contents(store.records)[answer.value := value]
                               && NanFree(answer.value) && (key.Some? ==> answer.value == key.value))
  {
    var (next, answer) := Put(store, key, value, extract);
    if answer.Ok? {
      var actual := answer.value;
      WriteIsMapUpdate(store.records, actual, value);
      WriteWeight(store.records, actual, value);
      WriteCount(store.records, actual, value);
      forall name | name in store.indexes && store.indexes[name].unique
        ensures AllDisjoint(next.records, store.indexes[name], extract)
      {
        AcceptedWriteDisjoint(store.records, store.indexes[name], actual, value, extract);
      }
    }
  }

  /** `add` is `put` under a key not stored yet, and a refusal otherwise. */
  lemma AddIsPutOfNewKey(store: Store, key: Option<Key>, value: seq<Byte>, extract: Extract)
    requires StrictlySorted(store.records) && (key.Some? ==> NanFree(key.value))
    ensures var (next, answer) := Add(store, key, value, extract);
            && (answer.Err? ==> next == store || (next, answer) == Put(store, key, value, extract))
            && (answer.Ok? ==> answer.value !in Contents(store.records)
                               && (next, answer) == Put(store, key, value, extract))
  {
    var target := WriteKey(store, key);
    if target.Some? {
      FindByKey(store.records, target.value.0);
      KeyInContents(store.records, target.value.0);
    }
  }

  lemma AddKeeps(store: Store, key: Option<Key>, value: seq<Byte>, extract: Extract)
    requires Clean(extract) && Inv(store, extract) && (key.Some? ==> NanFree(key.value))
    ensures var (next, answer) := Add(store, key, value, extract);
            && Inv(next, extract)
            && (answer.Err? ==> next.records == store.records && next.indexes == store.indexes)
            && (answer.Ok? ==> answer.value !in Contents(store.records)
                               && Contents(next.records) == Contents(store.records)[answer.value := value])
  {
    PutKeeps(store, key, value, extract);
    AddIsPutOfNewKey(store, key, value, extract);
  }

  lemma FewerStayUnique(store: Store, left: seq<Record>, extract: Extract)
    requires UniqueOk(store, extract)
    requires forall x <- left :: x in store.records
    ensures UniqueOk(store.(records := left), extract)
  {
  }

  lemma DeleteKeeps(store: Store, key: Key, extract: Extract)
    requires Inv(store, extract)
    ensures Inv(Delete(store, key).0, extract)
  {
    DeleteIsMapRemoval(store, key);
    var at := Find(store.records, key);
    if at < |store.records| {
      var left := store.records[..at] + store.records[at + 1..];
      SplitWeight(store.records, at);
      WeightAppends(store.records[..at], store.records[at + 1..]);
      FewerStayUnique(store, left, extract);
    }
  }

  lemma CreateIndexKeeps(store: Store, config: IndexConfig, extract: Extract)
    requires Inv(store, extract)
    ensures Inv(CreateIndex(store, config, extract).0, extract)
    ensures CreateIndex(store, config, extract).0.records == store.records
  {
    var next := CreateIndex(store, config, extract).0;
    if CreateIndex(store, config, extract).1.None? {
      if config.unique {
        CreatedIndexDisjoint(store.records, config, extract);
      }
      assert next.indexes.Keys == store.indexes.Keys + {config.name};
    }
  }

  lemma DeleteIndexKeeps(store: Store, name: seq<Byte>, extract: Extract)
    requires Inv(store, extract)
    ensures Inv(Step(store, DeleteIndexOp(name), extract), extract)
    ensures Step(store, DeleteIndexOp(name), extract).records == store.records
  {
    assert (store.indexes - {name}).Keys <= store.indexes.Keys;
  }

  /** An operation keeps the invariant and acts on the map of records as its answer says. */
  ghost predicate StepIsKept(store: Store, op: Op, extract: Extract)
    requires Inv(store, extract)
  {
    && Inv(Step(store, op, extract), extract)
    && Contents(Step(store, op, extract).records) == MapEffect(Contents(store.records), store, op, extract)
  }

  lemma PutStepKeeps(store: Store, key: Option<Key>, value: seq<Byte>, extract: Extract)
    requires Clean(extract) && Inv(store, extract) && (key.Some? ==> NanFree(key.value))
    ensures StepIsKept(store, PutOp(key, value), extract)
  {
    PutKeeps(store, key, value, extract);
  }

  lemma AddStepKeeps(store: Store, key: Option<Key>, value: seq<Byte>, extract: Extract)
    requires Clean(extract) && Inv(store, extract) && (key.Some? ==> NanFree(key.value))
    ensures StepIsKept(store, AddOp(key, value), extract)
  {
    AddKeeps(store, key, value, extract);
  }

  lemma DeleteStepKeeps(store: Store, key: Key, extract: Extract)
    requires Inv(store, extract)
    ensures StepIsKept(store, DeleteOp(key), extract)
  {
    DeleteKeeps(store, key, extract);
    DeleteIsMapRemoval(store, key);
  }

  lemma StepKeeps(store: Store, op: Op, extract: Extract)
    requires Clean(extract) && Inv(store, extract) && WritesNoNan(op)
    ensures StepIsKept(store, op, extract)
  {
    match op
    case PutOp(key, value) => PutStepKeeps(store, key, value, extract);
    case AddOp(key, value) => AddStepKeeps(store, key, value, extract);
    case DeleteOp(key) => DeleteStepKeeps(store, key, extract);
    case ClearOp =>
    case CreateIndexOp(config) => CreateIndexKeeps(store, config, extract);
    case DeleteIndexOp(name) => DeleteIndexKeeps(store, name, extract);
  }

  /**
   * Over every run of put, add, delete, clear and index calls without NaN keys, the record vector
   * stays strictly sorted and within its budgets, unique indexes stay unique, and the vector stands
   * for the map those calls, by their answers, would have made.
   */
  lemma {:induction false} RunKeeps(store: Store, ops: seq<Op>, extract: Extract)
    requires Clean(extract) && Inv(store, extract)
    requires forall op <- ops :: WritesNoNan(op)
    ensures Inv(Run(store, ops, extract), extract)
    ensures Contents(Run(store, ops, extract).records) == MapRun(Contents(store.records), store, ops, extract)
  {
    if ops != [] {
      RunKeeps(store, ops[..|ops| - 1], extract);
      StepKeeps(Run(store, ops[..|ops| - 1], extract), ops[|ops| - 1], extract);
    }
  }

  /** A new store satisfies the invariant, so `RunKeeps` covers every store ever used. */
  lemma NewStoreInv(autoIncrement: bool, extract: Extract)
    ensures Inv(Store(autoIncrement, 1, [], map[]), extract)
    ensures Contents([]) == map[]
  {
  }

  /** `get` reads the map: a NaN-free key finds its record, and a key holding NaN finds nothing. */
  lemma GetReadsMap(records: seq<Record>, key: Key)
    requires StrictlySorted(records)
    ensures var at := Find(records, key);
            if NanFree(key) && key in Contents(records)
            then at < |records| && records[at] == Record(key, Contents(records)[key])
            else at == |records|
  {
    FindByKey(records, key);
    KeyInContents(records, key);
    var at := Find(records, key);
    if at < |records| {
      ContentsHas(records, key, records[at].value);
    }
  }
}
