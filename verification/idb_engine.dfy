/** The IndexedDB engine of one origin: databases, transactions, and rollback guarded by an epoch. */
module IdbEngine {
  import opened Bytes
  import opened IdbStore
  import opened IdbStoreLaws
  import opened MachineInts
  import opened MapSums
  import opened Wrappers

  const MAX_DBS := 64
  const MAX_STORES := 256
  const MAX_ORIGIN_RECORDS := 100_000
  const MAX_ORIGIN_VALUE_BYTES := 256 * 1024 * 1024

  type Name = seq<Byte>

  /** `epoch` is a 64-bit counter of schema changes that wraps around. */
  datatype Database = Database(version: nat, stores: map<Name, Store>, epoch: nat)

  datatype Mode = ReadOnly | VersionChange

  datatype Transaction = Transaction(
    id: nat, mode: Mode, scope: set<Name>, dbName: Name, snapshot: Option<Database>, epochAtOpen: nat,
    aborted: bool, committed: bool)

  datatype EngineError = DatabaseBudget | VersionBelowCurrent | WasAborted | OriginBudget | WasCommitted

  datatype Engine = Engine(databases: map<Name, Database>, nextTx: nat)

  // ---- Schema changes -------------------------------------------------------------------

  function Bump(epoch: nat): (e: nat) {
    (epoch + 1) % U64_LIMIT
  }

  function CreateStore(db: Database, name: Name, autoIncrement: bool): (r: (Database, bool)) {
    if |db.stores| >= MAX_STORES || name in db.stores then (db, false)
    else (db.(stores := db.stores[name := Store(autoIncrement, 1, [], map[])], epoch := Bump(db.epoch)), true)
  }

  function DeleteStore(db: Database, name: Name): (r: (Database, bool)) {
    if name in db.stores then (db.(stores := db.stores - {name}, epoch := Bump(db.epoch)), true) else (db, false)
  }

  // ---- Budgets --------------------------------------------------------------------------

  ghost function DatabaseRecords(db: Database): (n: nat) {
    Sum(db.stores, (s: Store) => |s.records|)
  }

  ghost function DatabaseBytes(db: Database): (n: nat) {
    Sum(db.stores, (s: Store) => Weight(s.records))
  }

  ghost predicate OverBudget(databases: map<Name, Database>) {
    || Sum(databases, DatabaseRecords) > MAX_ORIGIN_RECORDS
    || Sum(databases, DatabaseBytes) > MAX_ORIGIN_VALUE_BYTES
  }

  // ---- Transactions ---------------------------------------------------------------------

  /** Whether opening creates or upgrades the database, and the version it then has. */
  function TargetVersion(e: Engine, name: Name, version: Option<nat>): (r: (nat, bool)) {
    if name !in e.databases then (if version.Some? then version.value else 1, true)
    else if version.Some? && version.value > e.databases[name].version then (version.value, true)
    else (e.databases[name].version, false)
  }

  function OpenDb(e: Engine, name: Name, version: Option<nat>): (r: (Engine, Result<Transaction, EngineError>)) {
    if |e.databases| >= MAX_DBS && name !in e.databases then (e, Err(DatabaseBudget))
    else if name in e.databases && version.Some? && version.value < e.databases[name].version
    then (e, Err(VersionBelowCurrent))
    else
      var (target, isNewOrUpgrade) := TargetVersion(e, name, version);
      var found := if name in e.databases then e.databases[name] else Database(target, map[], 0);
      var db := if isNewOrUpgrade && found.version != target
                then found.(version := target, epoch := Bump(found.epoch)) else found;
      var tx := Transaction(e.nextTx, if isNewOrUpgrade then VersionChange else ReadOnly, db.stores.Keys, name,
                            Some(db), db.epoch, false, false);
      (Engine(e.databases[name := db], e.nextTx + 1), Ok(tx))
  }

  /** `restore_snapshot_if_safe`: only while the database still has the epoch it was opened at. */
  function Restore(databases: map<Name, Database>, tx: Transaction): (r: map<Name, Database>) {
    if tx.snapshot.Some? && tx.dbName in databases && databases[tx.dbName].epoch == tx.epochAtOpen
    then databases[tx.dbName := tx.snapshot.value]
    else databases
  }

  ghost function Commit(e: Engine, tx: Transaction): (r: (Engine, Option<EngineError>)) {
    if tx.aborted then (e, Some(WasAborted))
    else if OverBudget(e.databases) then (e.(databases := Restore(e.databases, tx)), Some(OriginBudget))
    else (e, None)
  }

  function Abort(e: Engine, tx: Transaction): (r: (Engine, Option<EngineError>)) {
    if tx.committed then (e, Some(WasCommitted)) else (e.(databases := Restore(e.databases, tx)), None)
  }

  function DeleteDb(e: Engine, name: Name): (r: (Engine, bool)) {
    (e.(databases := e.databases - {name}), name in e.databases)
  }

  /** The engine as the program runs it. */
  class IndexedDbEngine {
    var databases: map<Name, Database>
    var nextTx: nat

    constructor ()
      ensures State() == Engine(map[], 1)
    {
      databases, nextTx := map[], 1;
    }

    function State(): (e: Engine)
      reads this
    {
      Engine(databases, nextTx)
    }

    method Open(name: Name, version: Option<nat>) returns (r: Result<Transaction, EngineError>)
      modifies this
      ensures (State(), r) == OpenDb(old(State()), name, version)
    {
      if |databases| >= MAX_DBS && name !in databases {
        return Err(DatabaseBudget);
      }
      var (target, isNewOrUpgrade) := TargetVersion(State(), name, version);
      if name in databases && version.Some? && version.value < databases[name].version {
        return Err(VersionBelowCurrent);
      }
      if name !in databases {
        databases := databases[name := Database(target, map[], 0)];
      }
      var db := databases[name];
      if isNewOrUpgrade && db.version != target {
        db := db.(version := target, epoch := Bump(db.epoch));
        databases := databases[name := db];
      }
      var id := nextTx;
      nextTx := nextTx + 1;
      assert old(databases)[name := db] == databases;
      return Ok(Transaction(id, if isNewOrUpgrade then VersionChange else ReadOnly, db.stores.Keys, name, Some(db),
                            db.epoch, false, false));
    }

    method RestoreSnapshotIfSafe(tx: Transaction)
      modifies this
      ensures databases == Restore(old(databases), tx) && nextTx == old(nextTx)
    {
      if tx.snapshot.Some? && tx.dbName in databases && databases[tx.dbName].epoch == tx.epochAtOpen {
        databases := databases[tx.dbName := tx.snapshot.value];
      }
    }

    /** Records and value bytes over all databases and stores. */
    method Retained() returns (records: nat, bytes: nat)
      ensures records == Sum(databases, DatabaseRecords) && bytes == Sum(databases, DatabaseBytes)
    {
      records, bytes := 0, 0;
      var left := databases;
      while left != map[]
        invariant records + Sum(left, DatabaseRecords) == Sum(databases, DatabaseRecords)
        invariant bytes + Sum(left, DatabaseBytes) == Sum(databases, DatabaseBytes)
        decreases |left|
      {
        var name :| name in left;
        var dbRecords, dbBytes := RetainedIn(left[name]);
        SumFrom(left, DatabaseRecords, name);
        SumFrom(left, DatabaseBytes, name);
        records, bytes := records + dbRecords, bytes + dbBytes;
        left := left - {name};
      }
    }

    method RetainedIn(db: Database) returns (records: nat, bytes: nat)
      ensures records == DatabaseRecords(db) && bytes == DatabaseBytes(db)
    {
      records, bytes := 0, 0;
      ghost var count, weight := (s: Store) => |s.records|, (s: Store) => Weight(s.records);
      var left := db.stores;
      while left != map[]
        invariant records + Sum(left, count) == Sum(db.stores, count)
        invariant bytes + Sum(left, weight) == Sum(db.stores, weight)
        decreases |left|
      {
        var name :| name in left;
        SumFrom(left, count, name);
        SumFrom(left, weight, name);
        records, bytes := records + |left[name].records|, bytes + Weight(left[name].records);
        left := left - {name};
      }
    }

    method CommitTransaction(tx: Transaction) returns (error: Option<EngineError>)
      modifies this
      ensures (State(), error) == Commit(old(State()), tx)
    {
      if tx.aborted {
        return Some(WasAborted);
      }
      var records, bytes := Retained();
      if records > MAX_ORIGIN_RECORDS || bytes > MAX_ORIGIN_VALUE_BYTES {
        RestoreSnapshotIfSafe(tx);
        return Some(OriginBudget);
      }
      return None;
    }

    method AbortTransaction(tx: Transaction) returns (error: Option<EngineError>)
      modifies this
      ensures (State(), error) == Abort(old(State()), tx)
    {
      if tx.committed {
        return Some(WasCommitted);
      }
      RestoreSnapshotIfSafe(tx);
      return None;
    }

    method DeleteDatabase(name: Name) returns (removed: bool)
      modifies this
      ensures (State(), removed) == DeleteDb(old(State()), name)
    {
      removed := name in databases;
      databases := databases - {name};
    }
  }

  // ---- Runs -----------------------------------------------------------------------------

  datatype Action =
    | OpenAction(name: Name, version: Option<nat>)
    | CreateAction(name: Name, store: Name, autoIncrement: bool)
    | DropAction(name: Name, store: Name)
    | WriteAction(name: Name, store: Name, op: Op)
    | CommitAction(id: nat)
    | AbortAction(id: nat)
    | DeleteAction(name: Name)

  /** The engine and the transactions callers hold; committing or aborting one uses it up. */
  datatype System = System(engine: Engine, open: map<nat, Transaction>)

  function OnDatabase(sys: System, name: Name, db: Database): (s: System) {
    sys.(engine := sys.engine.(databases := sys.engine.databases[name := db]))
  }

  ghost function Next(sys: System, action: Action, extract: Extract): (s: System) {
    var e := sys.engine;
    match action
    case OpenAction(name, version) =>
      var (next, answer) := OpenDb(e, name, version);
      if answer.Err? then sys else System(next, sys.open[answer.value.id := answer.value])
    case CreateAction(name, store, autoIncrement) =>
      if name !in e.databases then sys
      else OnDatabase(sys, name, CreateStore(e.databases[name], store, autoIncrement).0)
    case DropAction(name, store) =>
      if name !in e.databases then sys else OnDatabase(sys, name, DeleteStore(e.databases[name], store).0)
    case WriteAction(name, store, op) =>
      if name !in e.databases || store !in e.databases[name].stores then sys
      else
        var db := e.databases[name];
        OnDatabase(sys, name, db.(stores := db.stores[store := Step(db.stores[store], op, extract)]))
    case CommitAction(id) =>
      if id !in sys.open then sys else System(Commit(e, sys.open[id]).0, sys.open - {id})
    case AbortAction(id) =>
      if id !in sys.open then sys else System(Abort(e, sys.open[id]).0, sys.open - {id})
    case DeleteAction(name) => sys.(engine := DeleteDb(e, name).0)
  }

  ghost predicate IsStep(before: System, action: Action, after: System, extract: Extract) {
    after == Next(before, action, extract)
  }

  /** `trace[i]` is the system before action `i`; the last entry is the system after them all. */
  ghost predicate IsRun(trace: seq<System>, actions: seq<Action>, extract: Extract) {
    && |trace| == |actions| + 1
    && forall i :: 0 <= i < |actions| ==> IsStep(trace[i], actions[i], trace[i + 1], extract)
  }

  /** Snapshots carry the epoch they were taken at; every open transaction is unused and numbered below the next. */
  ghost predicate SysInv(sys: System) {
    && (forall id <- sys.open ::
          var tx := sys.open[id];
          id < sys.engine.nextTx && !tx.aborted && !tx.committed
          && tx.snapshot.Some? && tx.snapshot.value.epoch == tx.epochAtOpen < U64_LIMIT)
    && (forall name <- sys.engine.databases :: sys.engine.databases[name].epoch < U64_LIMIT)
  }

  /** A fresh engine, which every run starts from. */
  lemma FreshSystemInv()
    ensures SysInv(System(Engine(map[], 1), map[]))
  {
  }

  lemma NextKeepsInv(sys: System, action: Action, extract: Extract)
    requires SysInv(sys)
    ensures SysInv(Next(sys, action, extract))
  {
  }

  lemma {:induction false} RunKeepsInv(trace: seq<System>, actions: seq<Action>, n: nat, extract: Extract)
    requires IsRun(trace, actions, extract) && n <= |actions| && SysInv(trace[0])
    ensures SysInv(trace[n])
  {
    if n > 0 {
      RunKeepsInv(trace, actions, n - 1, extract);
      NextKeepsInv(trace[n - 1], actions[n - 1], extract);
      assert IsStep(trace[n - 1], actions[n - 1], trace[n], extract);
    }
  }

  /** The action creates or drops a store of `name`, or upgrades its version. */
  predicate ChangesSchema(sys: System, action: Action, name: Name) {
    name in sys.engine.databases &&
    var db := sys.engine.databases[name];
    match action
    case OpenAction(n, version) => n == name && version.Some? && version.value > db.version
    case CreateAction(n, store, auto) => n == name && CreateStore(db, store, auto).1
    case DropAction(n, store) => n == name && DeleteStore(db, store).1
    case _ => false
  }

  lemma EpochStep(sys: System, action: Action, name: Name, extract: Extract)
    requires SysInv(sys) && name in sys.engine.databases && name in Next(sys, action, extract).engine.databases
    ensures var before, after := sys.engine.databases[name], Next(sys, action, extract).engine.databases[name];
            after.epoch == if ChangesSchema(sys, action, name) then Bump(before.epoch) else before.epoch
  {
  }

  /** `name` is in the engine at every point of the run. */
  ghost predicate Lives(trace: seq<System>, name: Name) {
    forall i :: 0 <= i < |trace| ==> Exists(trace[i], name)
  }

  predicate Exists(sys: System, name: Name) {
    name in sys.engine.databases
  }

  function EpochOf(sys: System, name: Name): (e: nat)
    requires Exists(sys, name)
  {
    sys.engine.databases[name].epoch
  }

  /** How many of the first `n` actions change the schema of `name`. */
  function SchemaChanges(trace: seq<System>, actions: seq<Action>, name: Name, n: nat): (changes: nat)
    requires n <= |actions| < |trace|
  {
    if n == 0 then 0
    else SchemaChanges(trace, actions, name, n - 1)
         + if ChangesSchema(trace[n - 1], actions[n - 1], name) then 1 else 0
  }

  /** An epoch after `n` schema changes. */
  function Bumped(epoch: nat, n: nat): (e: nat) {
    if n == 0 then epoch else Bump(Bumped(epoch, n - 1))
  }

  lemma WrapStep(x: nat)
    ensures Bump(x % U64_LIMIT) == (x + 1) % U64_LIMIT
  {
  }

  /** Bumping is counting modulo 2^64. */
  lemma {:induction false} BumpedIsModulo(epoch: nat, n: nat)
    requires epoch < U64_LIMIT
    ensures Bumped(epoch, n) == (epoch + n) % U64_LIMIT
  {
    if n > 0 {
      BumpedIsModulo(epoch, n - 1);
      WrapStep(epoch + (n - 1));
    }
  }

  lemma BumpedReturns(epoch: nat, n: nat)
    requires epoch < U64_LIMIT
    ensures Bumped(epoch, n) == epoch <==> n % U64_LIMIT == 0
  {
    BumpedIsModulo(epoch, n);
    WrapsToItself(epoch, n);
  }

  lemma WrapsToItself(epoch: nat, changes: nat)
    requires epoch < U64_LIMIT
    ensures (epoch + changes) % U64_LIMIT == epoch <==> changes % U64_LIMIT == 0
  {
  }

  /** After `n` actions the epoch is the starting epoch bumped once for each schema change among them. */
  predicate Counted(trace: seq<System>, actions: seq<Action>, name: Name, n: nat)
    requires n <= |actions| < |trace| && Exists(trace[0], name) && Exists(trace[n], name)
  {
    EpochOf(trace[n], name) == Bumped(EpochOf(trace[0], name), SchemaChanges(trace, actions, name, n))
  }

  lemma CountStep(before: System, action: Action, after: System, name: Name, extract: Extract)
    requires SysInv(before) && Exists(before, name) && Exists(after, name) && IsStep(before, action, after, extract)
    ensures EpochOf(after, name) == Bumped(EpochOf(before, name), if ChangesSchema(before, action, name) then 1 else 0)
  {
    EpochStep(before, action, name, extract);
    assert Bumped(EpochOf(before, name), 1) == Bump(Bumped(EpochOf(before, name), 0));
  }

  /**
   * While a database is not deleted its epoch is bumped once for each of its schema changes: no record
   * write, open, commit or abort, also of other transactions, moves it or sets it back.
   */
  lemma {:induction false} EpochCountsChanges(trace: seq<System>, actions: seq<Action>, name: Name, n: nat,
                                              extract: Extract)
    requires IsRun(trace, actions, extract) && n <= |actions| && SysInv(trace[0]) && Lives(trace, name)
    ensures Exists(trace[0], name) && Exists(trace[n], name) && Counted(trace, actions, name, n)
  {
    assert Exists(trace[0], name) && Exists(trace[n], name);
    if n > 0 {
      EpochCountsChanges(trace, actions, name, n - 1, extract);
      RunKeepsInv(trace, actions, n - 1, extract);
      assert IsStep(trace[n - 1], actions[n - 1], trace[n], extract);
      CountStep(trace[n - 1], actions[n - 1], trace[n], name, extract);
    }
  }

  lemma BumpBelowLimit(x: nat)
    requires x + 1 < U64_LIMIT
    ensures Bump(x) == x + 1
  {
  }

  lemma {:induction false} BumpedBelowLimit(epoch: nat, n: nat)
    requires epoch + n < U64_LIMIT
    ensures Bumped(epoch, n) == epoch + n
  {
    if n > 0 {
      BumpedBelowLimit(epoch, n - 1);
      BumpBelowLimit(epoch + (n - 1));
    }
  }

  lemma EpochAdds(trace: seq<System>, actions: seq<Action>, name: Name, n: nat, extract: Extract)
    requires IsRun(trace, actions, extract) && n <= |actions| && SysInv(trace[0]) && Lives(trace, name)
    requires Exists(trace[0], name) && EpochOf(trace[0], name) + SchemaChanges(trace, actions, name, n) < U64_LIMIT
    ensures Exists(trace[n], name)
    ensures EpochOf(trace[n], name) == EpochOf(trace[0], name) + SchemaChanges(trace, actions, name, n)
  {
    EpochCountsChanges(trace, actions, name, n, extract);
    BumpedBelowLimit(EpochOf(trace[0], name), SchemaChanges(trace, actions, name, n));
  }

  /** So short of 2^64 changes the epoch never decreases, and each schema change raises it. */
  lemma EpochNeverDecreases(trace: seq<System>, actions: seq<Action>, name: Name, m: nat, n: nat, extract: Extract)
    requires IsRun(trace, actions, extract) && m <= n <= |actions| && SysInv(trace[0]) && Lives(trace, name)
    requires Exists(trace[0], name) && EpochOf(trace[0], name) + SchemaChanges(trace, actions, name, n) < U64_LIMIT
    ensures Exists(trace[m], name) && Exists(trace[n], name)
    ensures EpochOf(trace[n], name) - EpochOf(trace[m], name)
            == SchemaChanges(trace, actions, name, n) - SchemaChanges(trace, actions, name, m) >= 0
  {
    ChangesGrow(trace, actions, name, m, n);
    EpochAdds(trace, actions, name, m, extract);
    EpochAdds(trace, actions, name, n, extract);
  }

  lemma {:induction false} ChangesGrow(trace: seq<System>, actions: seq<Action>, name: Name, m: nat, n: nat)
    requires m <= n <= |actions| < |trace|
    ensures SchemaChanges(trace, actions, name, m) <= SchemaChanges(trace, actions, name, n)
  {
    if m < n {
      ChangesGrow(trace, actions, name, m, n - 1);
    }
  }

  // ---- Rollback -------------------------------------------------------------------------

  /** `id` is neither committed nor aborted along the way. */
  predicate Unfinished(actions: seq<Action>, id: nat) {
    CommitAction(id) !in actions && AbortAction(id) !in actions
  }

  predicate Holds(sys: System, id: nat, tx: Transaction) {
    id in sys.open && sys.open[id] == tx
  }

  lemma OpenTransactionStep(before: System, action: Action, after: System, id: nat, tx: Transaction, extract: Extract)
    requires SysInv(before) && Holds(before, id, tx) && IsStep(before, action, after, extract)
    requires action != CommitAction(id) && action != AbortAction(id)
    ensures Holds(after, id, tx)
  {
  }

  lemma {:induction false} OpenTransactionStays(trace: seq<System>, actions: seq<Action>, n: nat, id: nat,
                                                tx: Transaction, extract: Extract)
    requires IsRun(trace, actions, extract) && n <= |actions| && SysInv(trace[0])
    requires Holds(trace[0], id, tx) && Unfinished(actions, id)
    ensures Holds(trace[n], id, tx)
  {
    if n > 0 {
      OpenTransactionStays(trace, actions, n - 1, id, tx, extract);
      RunKeepsInv(trace, actions, n - 1, extract);
      OpenTransactionStep(trace[n - 1], actions[n - 1], trace[n], id, tx, extract);
    }
  }

  /** What aborting, or failing to commit, an unused transaction does to the databases. */
  predicate RollsBack(before: map<Name, Database>, after: map<Name, Database>, tx: Transaction, restored: bool)
    requires tx.snapshot.Some?
  {
    after == if restored then before[tx.dbName := tx.snapshot.value] else before
  }

  ghost predicate RollbackIs(sys: System, id: nat, extract: Extract, restored: bool)
    requires id in sys.open && sys.open[id].snapshot.Some?
  {
    var before, tx := sys.engine.databases, sys.open[id];
    && RollsBack(before, Next(sys, AbortAction(id), extract).engine.databases, tx, restored)
    && (OverBudget(before) ==> RollsBack(before, Next(sys, CommitAction(id), extract).engine.databases, tx, restored))
    && (!OverBudget(before) ==> Next(sys, CommitAction(id), extract).engine.databases == before)
  }

  lemma RollbackByEpoch(sys: System, id: nat, tx: Transaction, restored: bool, extract: Extract)
    requires SysInv(sys) && Holds(sys, id, tx) && Exists(sys, tx.dbName)
    requires restored <==> EpochOf(sys, tx.dbName) == tx.epochAtOpen
    ensures RollbackIs(sys, id, extract, restored)
  {
  }

  /** `trace` runs from just after `name` was opened, as transaction `tx`, in a system that satisfied the invariant. */
  ghost predicate RunsFromOpen(before: System, name: Name, version: Option<nat>, tx: Transaction,
                               trace: seq<System>, actions: seq<Action>, extract: Extract) {
    && SysInv(before)
    && OpenDb(before.engine, name, version).1 == Ok(tx)
    && IsRun(trace, actions, extract)
    && IsStep(before, OpenAction(name, version), trace[0], extract)
    && Lives(trace, name)
  }

  lemma OpenFacts(before: System, name: Name, version: Option<nat>, tx: Transaction, after: System, extract: Extract)
    requires SysInv(before) && OpenDb(before.engine, name, version).1 == Ok(tx)
    requires IsStep(before, OpenAction(name, version), after, extract)
    ensures SysInv(after) && Holds(after, tx.id, tx) && Exists(after, name)
    ensures tx.dbName == name && tx.snapshot == Some(after.engine.databases[name])
    ensures tx.epochAtOpen == EpochOf(after, name)
    ensures !Exists(before, name) ==> EpochOf(after, name) == 0
  {
    NextKeepsInv(before, OpenAction(name, version), extract);
  }

  lemma EndFacts(trace: seq<System>, actions: seq<Action>, tx: Transaction, extract: Extract)
    requires IsRun(trace, actions, extract) && SysInv(trace[0]) && Lives(trace, tx.dbName)
    requires Holds(trace[0], tx.id, tx) && Unfinished(actions, tx.id)
    ensures SysInv(trace[|actions|]) && Holds(trace[|actions|], tx.id, tx)
    ensures Exists(trace[0], tx.dbName) && Exists(trace[|actions|], tx.dbName)
    ensures Counted(trace, actions, tx.dbName, |actions|)
  {
    OpenTransactionStays(trace, actions, |actions|, tx.id, tx, extract);
    RunKeepsInv(trace, actions, |actions|, extract);
    EpochCountsChanges(trace, actions, tx.dbName, |actions|, extract);
    assert Exists(trace[|actions|], tx.dbName) && Exists(trace[0], tx.dbName);
  }

  /** At the end of any run in which the database lives, a transaction opened on it rolls back by the epoch. */
  lemma RollbackAtEnd(trace: seq<System>, actions: seq<Action>, tx: Transaction, restored: bool, extract: Extract)
    requires IsRun(trace, actions, extract) && SysInv(trace[0]) && Lives(trace, tx.dbName)
    requires Holds(trace[0], tx.id, tx) && Unfinished(actions, tx.id) && Exists(trace[0], tx.dbName)
    requires restored <==>
      Bumped(EpochOf(trace[0], tx.dbName), SchemaChanges(trace, actions, tx.dbName, |actions|)) == tx.epochAtOpen
    ensures Holds(trace[|actions|], tx.id, tx) && tx.snapshot.Some?
    ensures RollbackIs(trace[|actions|], tx.id, extract, restored)
  {
    EndFacts(trace, actions, tx, extract);
    var end := trace[|actions|];
    RollbackByEpoch(end, tx.id, tx, restored, extract);
  }

  /**
   * For every interleaving in which the database is not deleted: rolling a transaction back puts the
   * database back to the state it was opened in if and only if the number of schema changes made
   * since is a multiple of 2^64, and otherwise changes nothing. In particular with none it restores
   * the opening state exactly, and with one or more, short of 2^64, it undoes none of them.
   */
  lemma RollbackSparesSchemaChanges(before: System, name: Name, version: Option<nat>, tx: Transaction,
                                    trace: seq<System>, actions: seq<Action>, extract: Extract)
    requires RunsFromOpen(before, name, version, tx, trace, actions, extract) && Unfinished(actions, tx.id)
    ensures Exists(trace[0], name) && tx.dbName == name && tx.snapshot == Some(trace[0].engine.databases[name])
    ensures Holds(trace[|actions|], tx.id, tx)
    ensures RollbackIs(trace[|actions|], tx.id, extract,
                       SchemaChanges(trace, actions, name, |actions|) % U64_LIMIT == 0)
  {
    OpenFacts(before, name, version, tx, trace[0], extract);
    var changes := SchemaChanges(trace, actions, name, |actions|);
    BumpedReturns(tx.epochAtOpen, changes);
    RollbackAtEnd(trace, actions, tx, changes % U64_LIMIT == 0, extract);
  }

  /**
   * Deleting the database is the exception, and this is exactly how far it goes: a new database of
   * that name counts from zero again, so rolling back a transaction `stale` on the deleted one
   * overwrites the new one if and only if its schema changes have caught up with the old epoch.
   */
  lemma RollbackAfterRecreation(before: System, name: Name, version: Option<nat>, tx: Transaction, stale: Transaction,
                                trace: seq<System>, actions: seq<Action>, extract: Extract)
    requires RunsFromOpen(before, name, version, tx, trace, actions, extract) && Unfinished(actions, stale.id)
    requires Holds(before, stale.id, stale) && stale.dbName == name && !Exists(before, name)
    ensures Holds(trace[|actions|], stale.id, stale) && stale.snapshot.Some?
    ensures RollbackIs(trace[|actions|], stale.id, extract,
                       SchemaChanges(trace, actions, name, |actions|) % U64_LIMIT == stale.epochAtOpen)
  {
    OpenFacts(before, name, version, tx, trace[0], extract);
    OpenTransactionStep(before, OpenAction(name, version), trace[0], stale.id, stale, extract);
    var changes := SchemaChanges(trace, actions, name, |actions|);
    BumpedIsModulo(0, changes);
    RollbackAtEnd(trace, actions, stale, changes % U64_LIMIT == stale.epochAtOpen, extract);
  }

  /** While a deleted database has not been created again there is nothing to roll back, and nothing changes. */
  lemma RollbackAfterDeletion(sys: System, id: nat, extract: Extract)
    requires id in sys.open && sys.open[id].snapshot.Some? && !Exists(sys, sys.open[id].dbName)
    ensures RollbackIs(sys, id, extract, false)
  {
  }

  /** A database deleted and opened anew while transaction 2 is open on the old one. */
  lemma Reopened(db: Name, kept: Name, extract: Extract)
    ensures var start := System(Engine(map[], 1), map[]);
            var s1 := Next(start, OpenAction(db, Some(1)), extract);
            var s2 := Next(s1, CreateAction(db, kept, true), extract);
            var s3 := Next(s2, OpenAction(db, None), extract);
            var s4 := Next(s3, DeleteAction(db), extract);
            var s5 := Next(s4, OpenAction(db, None), extract);
            && s5.engine.databases == map[db := Database(1, map[], 0)]
            && 2 in s5.open && s5.open[2].dbName == db && !s5.open[2].aborted && !s5.open[2].committed
            && s5.open[2].epochAtOpen == 1 && s5.open[2].snapshot.Some?
            && s5.open[2].snapshot.value.stores.Keys == {kept}
  {
    var start := System(Engine(map[], 1), map[]);
    var s1 := Next(start, OpenAction(db, Some(1)), extract);
    var s2 := Next(s1, CreateAction(db, kept, true), extract);
    var s3 := Next(s2, OpenAction(db, None), extract);
    assert s3.engine.databases[db].epoch == 1 && s3.open[2].snapshot.value.stores.Keys == {kept};
    var s4 := Next(s3, DeleteAction(db), extract);
    var s5 := Next(s4, OpenAction(db, None), extract);
    assert s4.engine.databases == map[] && s5.open[2] == s3.open[2];
  }

  /** A concrete run: a stale abort brings a deleted database back and drops the new one's store. */
  lemma StaleAbortResurrects(db: Name, kept: Name, newer: Name, extract: Extract)
    requires kept != newer
    ensures var start := System(Engine(map[], 1), map[]);
            var s1 := Next(start, OpenAction(db, Some(1)), extract);
            var s2 := Next(s1, CreateAction(db, kept, true), extract);
            var s3 := Next(s2, OpenAction(db, None), extract);
            var s4 := Next(s3, DeleteAction(db), extract);
            var s5 := Next(s4, OpenAction(db, None), extract);
            var s6 := Next(s5, CreateAction(db, newer, true), extract);
            var s7 := Next(s6, AbortAction(2), extract);
            && s6.engine.databases.Keys == {db} && s6.engine.databases[db].stores.Keys == {newer}
            && s7.engine.databases.Keys == {db} && s7.engine.databases[db].stores.Keys == {kept}
  {
    Reopened(db, kept, extract);
  }
}
