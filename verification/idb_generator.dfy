/** The key generator of an object store: the numbers it hands out over every run of calls. */
module IdbGenerator {
  import opened Bytes
  import opened IdbKey
  import opened IdbStore
  import opened IdbStoreLaws
  import opened Wrappers

  predicate IsKeyless(op: Op) {
    (op.PutOp? || op.AddOp?) && op.key.None?
  }

  predicate Stored(records: seq<Record>, key: Key) {
    exists i :: 0 <= i < |records| && KeyEq(records[i].key, key)
  }

  /** The key a number stands for. */
  function Numbered(n: nat): (k: Key) {
    Number(Finite(n as real))
  }

  /**
   * A call that takes a number: a write without a key, to a store with a generator, of a value that is not
   * too long by itself, and, for `add`, while the number is not in use as a key.
   */
  predicate TakesNumber(store: Store, op: Op) {
    && IsKeyless(op) && store.autoIncrement && |op.value| <= 2 * 1024 * 1024
    && (op.AddOp? ==> !Stored(store.records, Numbered(store.counter)))
  }

  function Answer(store: Store, op: Op, extract: Extract): (r: Result<Key, StoreError>)
    requires op.PutOp? || op.AddOp?
  {
    if op.PutOp? then Put(store, op.key, op.value, extract).1 else Add(store, op.key, op.value, extract).1
  }

  lemma FindIsStored(records: seq<Record>, key: Key)
    ensures Find(records, key) < |records| <==> Stored(records, key)
  {
  }

  /** One call: the counter moves by one if the call takes a number, and by nothing else. */
  lemma StepCounts(store: Store, op: Op, extract: Extract)
    ensures var next := Step(store, op, extract);
            && next.counter == store.counter + (if TakesNumber(store, op) then 1 else 0)
            && next.autoIncrement == store.autoIncrement
  {
    FindIsStored(store.records, Numbered(store.counter));
  }

  /** A write without a key answers the number it took; without a generator it is refused and changes nothing. */
  lemma KeylessAnswers(store: Store, op: Op, extract: Extract)
    requires IsKeyless(op)
    ensures Answer(store, op, extract).Ok? ==>
              TakesNumber(store, op) && Answer(store, op, extract).value == Numbered(store.counter)
    ensures !store.autoIncrement ==> Answer(store, op, extract).Err? && Step(store, op, extract) == store
  {
    FindIsStored(store.records, Numbered(store.counter));
  }

  /** The calls among the first `n` that took a number. */
  function Taken(store: Store, ops: seq<Op>, n: nat, extract: Extract): (count: nat)
    requires n <= |ops|
  {
    if n == 0 then 0
    else Taken(store, ops, n - 1, extract) + if TakesNumber(Run(store, ops[..n - 1], extract), ops[n - 1]) then 1 else 0
  }

  lemma RunOneMore(store: Store, ops: seq<Op>, n: nat, extract: Extract)
    requires 0 < n <= |ops|
    ensures Run(store, ops[..n], extract) == Step(Run(store, ops[..n - 1], extract), ops[n - 1], extract)
  {
    assert ops[..n][..n - 1] == ops[..n - 1];
  }

  /** Over every run the counter is the starting one and the calls that took a number, whatever else is called. */
  lemma {:induction false} CounterCounts(store: Store, ops: seq<Op>, n: nat, extract: Extract)
    requires n <= |ops|
    ensures var now := Run(store, ops[..n], extract);
            now.counter == store.counter + Taken(store, ops, n, extract) && now.autoIncrement == store.autoIncrement
  {
    if n == 0 {
      assert ops[..0] == [];
    } else {
      CounterCounts(store, ops, n - 1, extract);
      RunOneMore(store, ops, n, extract);
      StepCounts(Run(store, ops[..n - 1], extract), ops[n - 1], extract);
    }
  }

  lemma {:induction false} TakenGrows(store: Store, ops: seq<Op>, i: nat, j: nat, extract: Extract)
    requires i < j <= |ops| && TakesNumber(Run(store, ops[..i], extract), ops[i])
    ensures Taken(store, ops, i, extract) < Taken(store, ops, j, extract)
    decreases j
  {
    if i < j - 1 {
      TakenGrows(store, ops, i, j - 1, extract);
    }
  }

  /** Call `i` of a run is a write without a key that succeeded. */
  predicate Generates(store: Store, ops: seq<Op>, i: nat, extract: Extract) {
    i < |ops| && IsKeyless(ops[i]) && Answer(Run(store, ops[..i], extract), ops[i], extract).Ok?
  }

  function GeneratedKey(store: Store, ops: seq<Op>, i: nat, extract: Extract): (k: Key)
    requires Generates(store, ops, i, extract)
  {
    Answer(Run(store, ops[..i], extract), ops[i], extract).value
  }

  lemma NumbersRise(m: nat, n: nat)
    requires m < n
    ensures Cmp(Numbered(m), Numbered(n)) == Less && !KeyEq(Numbered(m), Numbered(n)) && Numbered(m) != Numbered(n)
  {
  }

  lemma GeneratedKeyIs(store: Store, ops: seq<Op>, i: nat, extract: Extract)
    requires Generates(store, ops, i, extract)
    ensures GeneratedKey(store, ops, i, extract) == Numbered(store.counter + Taken(store, ops, i, extract))
    ensures TakesNumber(Run(store, ops[..i], extract), ops[i])
  {
    CounterCounts(store, ops, i, extract);
    KeylessAnswers(Run(store, ops[..i], extract), ops[i], extract);
  }

  /** Generated keys are numbers that rise from call to call, so none is ever handed out twice. */
  lemma GeneratedKeysRise(store: Store, ops: seq<Op>, i: nat, j: nat, extract: Extract)
    requires i < j && Generates(store, ops, i, extract) && Generates(store, ops, j, extract)
    ensures var (a, b) := (GeneratedKey(store, ops, i, extract), GeneratedKey(store, ops, j, extract));
            && a == Numbered(store.counter + Taken(store, ops, i, extract))
            && Cmp(a, b) == Less && !KeyEq(a, b) && a != b
  {
    GeneratedKeyIs(store, ops, i, extract);
    GeneratedKeyIs(store, ops, j, extract);
    TakenGrows(store, ops, i, j, extract);
    NumbersRise(store.counter + Taken(store, ops, i, extract), store.counter + Taken(store, ops, j, extract));
  }

  /** A short value under a new key goes to the end of a short list of smaller keys. */
  lemma PutAppends(store: Store, a: Byte, extract: Extract)
    requires store.autoIncrement && store.indexes == map[] && |store.records| <= 1 && Weight(store.records) <= 1
    requires forall r <- store.records :: Cmp(r.key, Numbered(store.counter)) == Less && !KeyEq(r.key, Numbered(store.counter))
    ensures Step(store, PutOp(None, [a]), extract)
            == store.(counter := store.counter + 1, records := store.records + [Record(Numbered(store.counter), [a])])
  {
    var next := store.(counter := store.counter + 1);
    var made := Record(Numbered(store.counter), [a]);
    var all := store.records + [made];
    FindIsStored(store.records, made.key);
    assert KeyBytes(made.key, 0) == Ok(8);
    assert WriteError(next, made.key, [a], extract).None?;
    assert SortByKey([made]) == [made];
    if store.records != [] {
      assert all == [all[0]] + [made] && all[1..] == [made] && all[0] in store.records;
      assert InsertByKey(all[0], [made]) == [all[0]] + [made];
    } else {
      assert all == [made];
    }
    assert SortByKey(all) == all;
  }

  /** Two writes without a key to a new store: keys 1 and 2, and both records are there. */
  lemma TwoKeylessPuts(a: Byte, b: Byte, extract: Extract)
    ensures var store := Store(true, 1, [], map[]);
            Run(store, [PutOp(None, [a]), PutOp(None, [b])], extract).records
            == [Record(Numbered(1), [a]), Record(Numbered(2), [b])]
  {
    var store, ops := Store(true, 1, [], map[]), [PutOp(None, [a]), PutOp(None, [b])];
    PutAppends(store, a, extract);
    RunOneMore(store, ops, 1, extract);
    assert ops[..0] == [] && ops[..2] == ops;
    assert [] + [Record(Numbered(1), [a])] == [Record(Numbered(1), [a])];
    var one := Run(store, ops[..1], extract);
    assert one == Store(true, 2, [Record(Numbered(1), [a])], map[]);
    assert Weight(one.records) == 1 by {
      assert one.records[1..] == [];
    }
    PutAppends(one, b, extract);
    RunOneMore(store, ops, 2, extract);
  }
}
