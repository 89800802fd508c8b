/** What opening a database and changing its stores come to. */
module IdbEngineLaws {
  import opened IdbEngine
  import opened IdbStore
  import opened IdbStoreLaws
  import opened MapSums
  import opened Wrappers

  predicate IsNew(e: Engine, name: Name) {
    name !in e.databases
  }

  /**
   * Opening is refused for a new database when there are 64 already, and for a version below the current one. Otherwise
   * the database then has the version asked for, or the current one, or 1; its stores are kept, and a new one has none.
   * The transaction may change stores if and only if the database is new or its version rises, and it holds the state
   * the database was opened in. No other database is touched.
   */
  lemma OpeningFollowsVersions(e: Engine, name: Name, version: Option<nat>)
    ensures var (after, answer) := OpenDb(e, name, version);
            var refused := if IsNew(e, name) then |e.databases| >= 64
                           else version.Some? && version.value < e.databases[name].version;
            && (answer.Err? <==> refused) && (refused ==> after == e)
            && (answer.Ok? ==>
                  && after.databases.Keys == e.databases.Keys + {name} && after.nextTx == e.nextTx + 1
                  && (forall other <- e.databases :: other != name ==> after.databases[other] == e.databases[other])
                  && var (db, tx) := (after.databases[name], answer.value);
                     var rises := IsNew(e, name) || (version.Some? && version.value > e.databases[name].version);
                     && db.version == (if version.Some? then version.value
                                       else if IsNew(e, name) then 1 else e.databases[name].version)
                     && db.stores == (if IsNew(e, name) then map[] else e.databases[name].stores)
                     && tx.id == e.nextTx && tx.dbName == name && tx.snapshot == Some(db) && tx.epochAtOpen == db.epoch
                     && tx.scope == db.stores.Keys && (tx.mode == VersionChange <==> rises) && (tx.mode == ReadOnly <==> !rises)
                     && !tx.aborted && !tx.committed)
  {
  }

  /** A store is created if there are less than 256 and none of that name, and starts empty with its first number. */
  lemma CreatingAddsAnEmptyStore(db: Database, name: Name, autoIncrement: bool)
    ensures var (after, ok) := CreateStore(db, name, autoIncrement);
            && (ok <==> |db.stores| < 256 && name !in db.stores)
            && (!ok ==> after == db)
            && (ok ==> after.version == db.version && after.stores.Keys == db.stores.Keys + {name}
                       && (forall other <- db.stores :: after.stores[other] == db.stores[other])
                       && var store := after.stores[name];
                          && store.autoIncrement == autoIncrement && store.counter == 1
                          && store.records == [] && store.indexes == map[])
  {
  }

  /** Deleting takes out that store, if there is one, and no other. */
  lemma DeletingTakesOneStore(db: Database, name: Name)
    ensures var (after, ok) := DeleteStore(db, name);
            && (ok <==> name in db.stores) && after.version == db.version
            && after.stores.Keys == db.stores.Keys - {name}
            && forall other <- after.stores :: after.stores[other] == db.stores[other]
  {
  }

  /** A commit succeeds if and only if it was not aborted and the origin holds at most 100000 records and 256 MiB. */
  lemma CommitKeepsBudgets(e: Engine, tx: Transaction)
    ensures var (after, error) := Commit(e, tx);
            var within := Sum(e.databases, DatabaseRecords) <= 100_000
                          && Sum(e.databases, DatabaseBytes) <= 268_435_456;
            && (error.None? <==> !tx.aborted && within)
            && (error.None? || tx.aborted ==> after == e)
            && (!tx.aborted && !within ==> after == Abort(e, tx.(committed := false)).0)
  {
  }

  /** An abort is refused for a transaction that was committed, and never touches another database. */
  lemma AbortTouchesOneDatabase(e: Engine, tx: Transaction)
    ensures var (after, error) := Abort(e, tx);
            && (error.None? <==> !tx.committed) && (tx.committed ==> after == e) && after.nextTx == e.nextTx
            && after.databases.Keys == e.databases.Keys
            && forall other <- e.databases :: other != tx.dbName ==> after.databases[other] == e.databases[other]
  {
  }

  /** Deleting a database takes out that one and no other. */
  lemma DeletingTakesOneDatabase(e: Engine, name: Name)
    ensures var (after, removed) := DeleteDb(e, name);
            && (removed <==> name in e.databases) && after.nextTx == e.nextTx
            && after.databases.Keys == e.databases.Keys - {name}
            && forall other <- after.databases :: after.databases[other] == e.databases[other]
  {
  }
}
