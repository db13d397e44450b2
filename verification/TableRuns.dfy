/** Any sequence of table calls, by any receivers, in any number of action contexts. */
module TableRuns {
  import opened Basics
  import opened Sums
  import opened TableStore
  import opened TableTheory
  import opened TableIterators

  /** `NewContext` starts an action context with an empty iterator cache. */
  datatype Call =
    | NewContext
    | StoreCall(env: Env, scope: nat, name: nat, payer: Account, pk: nat, value: bytes)
    | UpdateCall(env: Env, it: int, payer: Account, value: bytes)
    | RemoveCall(env: Env, it: int)
    | FindCall(code: nat, scope: nat, name: nat, pk: nat)
    | LowerCall(code: nat, scope: nat, name: nat, pk: nat)
    | UpperCall(code: nat, scope: nat, name: nat, pk: nat)
    | EndCall(code: nat, scope: nat, name: nat)
    | NextCall(it: int)
    | PreviousCall(it: int)

  /** A failed assertion aborts the call and leaves everything as it was. */
  function Step(st: State, call: Call): State {
    match call
    case NewContext => st.(cache := Cache([], []))
    case StoreCall(env, scope, name, payer, pk, value) =>
      (match Store(st, env, scope, name, payer, pk, value) case Some((st', _)) => st' case None => st)
    case UpdateCall(env, it, payer, value) =>
      (match Update(st, env, it, payer, value) case Some(st') => st' case None => st)
    case RemoveCall(env, it) => (match Remove(st, env, it) case Some(st') => st' case None => st)
    case FindCall(code, scope, name, pk) => Find(st, code, scope, name, pk).0
    case LowerCall(code, scope, name, pk) => Lower(st, code, scope, name, pk).0
    case UpperCall(code, scope, name, pk) => Upper(st, code, scope, name, pk).0
    case EndCall(code, scope, name) => End(st, code, scope, name).0
    case NextCall(it) => (match Next(st, it) case Some((st', _)) => st' case None => st)
    case PreviousCall(it) => (match Previous(st, it) case Some((st', _)) => st' case None => st)
  }

  function Run(st: State, calls: seq<Call>): State
    decreases |calls|
  {
    if calls == [] then st else Run(Step(st, calls[0]), calls[1..])
  }

  const Start := State(Db([], [], 0, map[]), Cache([], []))

  ghost predicate KeyIn(rows: seq<Row>, ref: Ref) {
    exists p :: 0 <= p < |rows| && rows[p].tid == ref.tid && rows[p].pk == ref.pk
  }

  lemma {:induction false} LiveIsIn(st: State, ref: Ref)
    requires Sorted(st.db.rows)
    ensures Live(st, ref) <==> KeyIn(st.db.rows, ref) && ref.tid in st.cache.ends
  {
    hide Position;
    if KeyIn(st.db.rows, ref) {
      var p :| 0 <= p < |st.db.rows| && st.db.rows[p].tid == ref.tid && st.db.rows[p].pk == ref.pk;
      PositionComplete(st.db.rows, ref.tid, ref.pk, p);
    }
  }

  /** The lookups behind a live iterator succeed: the "invariant was broken" assertion never fires. */
  lemma {:induction false} LocateSucceeds(st: State, it: int)
    requires StateValid(st)
    ensures Locate(st, it).Some? <==> Get(st.cache, it).Some?
    ensures Locate(st, it).Some? ==>
              st.db.tables[Locate(st, it).value.1].id == st.db.rows[Locate(st, it).value.0].tid
  {
    hide Position, TableById, Sum, Conserved;
    if Get(st.cache, it).Some? {
      var ref := Get(st.cache, it).value;
      assert Live(st, ref);
      var p := Position(st.db.rows, ref.tid, ref.pk);
      assert HasTable(st.db.tables, st.db.rows[p].tid);
    }
  }

  /** Iterators survive any change of the rows that keeps the keys behind them. */
  lemma {:induction false} CacheSurvives(st: State, db: Db, cache: Cache)
    requires Sorted(st.db.rows) && Sorted(db.rows) && CacheValid(st)
    requires cache.ends == st.cache.ends && |cache.objs| == |st.cache.objs|
    requires forall i :: 0 <= i < |cache.objs| && cache.objs[i].Some? ==>
               cache.objs[i] == st.cache.objs[i] &&
               (KeyIn(st.db.rows, cache.objs[i].value) ==> KeyIn(db.rows, cache.objs[i].value))
    ensures CacheValid(State(db, cache))
  {
    hide KeyIn, Sorted, Live;
    forall i | 0 <= i < |cache.objs| && cache.objs[i].Some? ensures Live(State(db, cache), cache.objs[i].value) {
      LiveIsIn(st, cache.objs[i].value);
      LiveIsIn(State(db, cache), cache.objs[i].value);
    }
  }

  lemma {:induction false} KeyInInsert(rows: seq<Row>, k: nat, row: Row, ref: Ref)
    requires k <= |rows|
    ensures KeyIn(rows, ref) ==> KeyIn(InsertAt(rows, k, row), ref)
    ensures KeyIn(InsertAt(rows, k, row), Ref(row.tid, row.pk))
  {
    var rows' := InsertAt(rows, k, row);
    assert rows'[k] == row;
    if KeyIn(rows, ref) {
      var p :| 0 <= p < |rows| && rows[p].tid == ref.tid && rows[p].pk == ref.pk;
      assert rows'[if p < k then p else p + 1] == rows[p];
    }
  }

  lemma {:induction false} KeyInRemove(rows: seq<Row>, p: nat, ref: Ref)
    requires p < |rows| && ref != Ref(rows[p].tid, rows[p].pk)
    ensures KeyIn(rows, ref) ==> KeyIn(RemoveAt(rows, p), ref)
  {
    var rows' := RemoveAt(rows, p);
    if KeyIn(rows, ref) {
      var q :| 0 <= q < |rows| && rows[q].tid == ref.tid && rows[q].pk == ref.pk;
      assert rows'[if q < p then q else q - 1] == rows[q];
    }
  }

  lemma {:induction false} KeyInReplace(rows: seq<Row>, p: nat, row: Row, ref: Ref)
    requires p < |rows| && row.tid == rows[p].tid && row.pk == rows[p].pk
    ensures KeyIn(rows, ref) ==> KeyIn(rows[p := row], ref)
  {
    if KeyIn(rows, ref) {
      var q :| 0 <= q < |rows| && rows[q].tid == ref.tid && rows[q].pk == ref.pk;
      assert rows[p := row][q].tid == ref.tid && rows[p := row][q].pk == ref.pk;
    }
  }

  /* ---------- the calls that change rows ---------- */

  lemma {:induction false} StoreStepKeeps(st: State, env: Env, scope: nat, name: nat, payer: Account, pk: nat, value: bytes)
    requires StateValid(st) && Store(st, env, scope, name, payer, pk, value).Some?
    ensures var (st', it) := Store(st, env, scope, name, payer, pk, value).value;
            StateValid(st') && Get(st'.cache, it).Some? && Get(st'.cache, it).value.pk == pk
  {
    hide Valid, CacheValid, KeyIn, InsertAt, LowerBound, Position, UpdateUsage, FindOrCreateTable, AddRef, CacheTable, Live;
    var (db, tid) := StoreRow(st.db, env, scope, name, payer, pk, value).value;
    StoreKeeps(st.db, env, scope, name, payer, pk, value);
    ValidSorted(st.db);
    ValidSorted(db);
    StoredRows(st.db, env, scope, name, payer, pk, value);
    CacheSurvives(st, db, st.cache);
    var st1 := State(db, st.cache);
    CacheTableKeeps(st1, tid);
    var st2 := st1.(cache := CacheTable(st.cache, tid).0);
    LiveIsIn(st2, Ref(tid, pk));
    AddRefKeeps(st2, Ref(tid, pk));
  }

  lemma {:induction false} StoredRows(db: Db, env: Env, scope: nat, name: nat, payer: Account, pk: nat, value: bytes)
    requires StoreRow(db, env, scope, name, payer, pk, value).Some?
    ensures var (db', tid) := StoreRow(db, env, scope, name, payer, pk, value).value;
            && KeyIn(db'.rows, Ref(tid, pk))
            && forall ref :: KeyIn(db.rows, ref) ==> KeyIn(db'.rows, ref)
  {
    hide KeyIn, InsertAt, LowerBound, Position;
    var (db', tid) := StoreRow(db, env, scope, name, payer, pk, value).value;
    var row := Row(tid, pk, payer, value);
    var k := LowerBound(db.rows, tid, pk);
    assert db'.rows == InsertAt(db.rows, k, row);
    forall ref ensures KeyIn(db.rows, ref) ==> KeyIn(db'.rows, ref) {
      KeyInInsert(db.rows, k, row, ref);
    }
    KeyInInsert(db.rows, k, row, Ref(tid, pk));
  }

  lemma {:induction false} UpdateStepKeeps(st: State, env: Env, it: int, payer: Account, value: bytes)
    requires StateValid(st) && Update(st, env, it, payer, value).Some?
    ensures StateValid(Update(st, env, it, payer, value).value)
  {
    hide Valid, CacheValid, KeyIn, Locate;
    var (p, i) := Locate(st, it).value;
    var db := UpdateRow(st.db, env, p, i, payer, value).value;
    UpdateKeeps(st.db, env, p, i, payer, value);
    ValidSorted(st.db);
    ValidSorted(db);
    var row := db.rows[p];
    assert db.rows == st.db.rows[p := row] && row.tid == st.db.rows[p].tid && row.pk == st.db.rows[p].pk;
    forall ref ensures KeyIn(st.db.rows, ref) ==> KeyIn(db.rows, ref) {
      KeyInReplace(st.db.rows, p, row, ref);
    }
    CacheSurvives(st, db, st.cache);
  }

  lemma {:induction false} RemoveStepKeeps(st: State, env: Env, it: int)
    requires StateValid(st) && Remove(st, env, it).Some?
    ensures StateValid(Remove(st, env, it).value)
  {
    hide Valid, KeyIn, RemoveAt, RowCost, Sorted;
    LocateSucceeds(st, it);
    var (p, i) := Locate(st, it).value;
    var db := RemoveRow(st.db, env, p, i).value;
    RemoveKeeps(st.db, env, p, i);
    ValidSorted(st.db);
    ValidSorted(db);
    assert db.rows == RemoveAt(st.db.rows, p);
    var objs := st.cache.objs;
    var cache := st.cache.(objs := objs[it := None]);
    forall j | 0 <= j < |cache.objs| && cache.objs[j].Some?
      ensures cache.objs[j] == objs[j] && (KeyIn(st.db.rows, cache.objs[j].value) ==> KeyIn(db.rows, cache.objs[j].value))
    {
      KeyInRemove(st.db.rows, p, cache.objs[j].value);
    }
    CacheSurvives(st, db, cache);
  }

  /* ---------- all calls ---------- */

  lemma {:induction false} StepKeeps(st: State, call: Call)
    requires StateValid(st)
    ensures StateValid(Step(st, call))
  {
    hide Valid, CacheValid, Store, Update, Remove, At, Before, StateValid, Position, LowerBound, UpperBound, TableUpperBound, FindTable;
    match call
    case NewContext =>
      FreshCache(st);
    case StoreCall(env, scope, name, payer, pk, value) =>
      if Store(st, env, scope, name, payer, pk, value).Some? {
        StoreStepKeeps(st, env, scope, name, payer, pk, value);
      }
    case UpdateCall(env, it, payer, value) =>
      if Update(st, env, it, payer, value).Some? {
        UpdateStepKeeps(st, env, it, payer, value);
      }
    case RemoveCall(env, it) =>
      if Remove(st, env, it).Some? {
        RemoveStepKeeps(st, env, it);
      }
    case FindCall(code, scope, name, pk) =>
      var i := FindTable(st.db.tables, code, scope, name);
      if i < |st.db.tables| {
        AtKeeps(st, st.db.tables[i].id, Position(st.db.rows, st.db.tables[i].id, pk));
      }
    case LowerCall(code, scope, name, pk) =>
      var i := FindTable(st.db.tables, code, scope, name);
      if i < |st.db.tables| {
        AtKeeps(st, st.db.tables[i].id, LowerBound(st.db.rows, st.db.tables[i].id, pk));
      }
    case UpperCall(code, scope, name, pk) =>
      var i := FindTable(st.db.tables, code, scope, name);
      if i < |st.db.tables| {
        AtKeeps(st, st.db.tables[i].id, UpperBound(st.db.rows, st.db.tables[i].id, pk));
      }
    case EndCall(code, scope, name) =>
      EndKeeps(st, code, scope, name);
    case NextCall(it) =>
      if Get(st.cache, it).Some? {
        var ref := Get(st.cache, it).value;
        AtKeeps(st, ref.tid, Position(st.db.rows, ref.tid, ref.pk) + 1);
      }
    case PreviousCall(it) =>
      PreviousKeeps(st, it);
  }

  lemma {:induction false} FreshCache(st: State)
    requires StateValid(st)
    ensures StateValid(st.(cache := Cache([], [])))
  {
  }

  lemma {:induction false} EndKeeps(st: State, code: nat, scope: nat, name: nat)
    requires StateValid(st)
    ensures StateValid(End(st, code, scope, name).0)
  {
    hide Valid, CacheValid, CacheTable;
    var i := FindTable(st.db.tables, code, scope, name);
    if i < |st.db.tables| {
      CacheTableKeeps(st, st.db.tables[i].id);
    }
  }

  lemma {:induction false} PreviousKeeps(st: State, it: int)
    requires StateValid(st)
    ensures Previous(st, it).Some? ==> StateValid(Previous(st, it).value.0)
  {
    hide Valid, Before, Position, TableUpperBound;
    if Previous(st, it).Some? {
      if it < -1 {
        var tid := st.cache.ends[-it - 2];
        BeforeKeeps(st, tid, TableUpperBound(st.db.rows, tid));
      } else {
        var ref := Get(st.cache, it).value;
        assert Live(st, ref);
        BeforeKeeps(st, ref.tid, Position(st.db.rows, ref.tid, ref.pk));
      }
    }
  }

  lemma {:induction false} RunKeeps(st: State, calls: seq<Call>)
    requires StateValid(st)
    ensures StateValid(Run(st, calls))
    decreases |calls|
  {
    hide StateValid, Step;
    if calls != [] {
      StepKeeps(st, calls[0]);
      RunKeeps(Step(st, calls[0]), calls[1..]);
    }
  }

  /** After any run: every count is the number of rows, a table exists exactly when it has a row,
      every account's net charge is the size of what it pays for, and iterators stand for rows. */
  lemma {:induction false} AnyRun(calls: seq<Call>)
    ensures var db := Run(Start, calls).db;
            && StateValid(Run(Start, calls))
            && (forall i :: 0 <= i < |db.tables| ==> db.tables[i].count == |TableKeys(db.rows, db.tables[i].id)| > 0)
            && (forall tid :: HasTable(db.tables, tid) <==> TableKeys(db.rows, tid) != [])
            && (forall a :: RamOf(db.ram, a) == Sum(db.rows, RowCharge(a)) + Sum(db.tables, TableCharge(a)))
  {
    hide Run, Sum, TableKeys;
    EmptyIsValid();
    RunKeeps(Start, calls);
    var db := Run(Start, calls).db;
    forall tid ensures |TableKeys(db.rows, tid)| == Sum(db.rows, InTable(tid)) {
      KeysCount(db.rows, tid);
    }
    forall tid ensures HasTable(db.tables, tid) <==> TableKeys(db.rows, tid) != [] {
      TableIffRow(db, tid);
      PositiveCount(db.rows, tid);
      assert |TableKeys(db.rows, tid)| == Sum(db.rows, InTable(tid));
    }
    forall a ensures RamOf(db.ram, a) == Sum(db.rows, RowCharge(a)) + Sum(db.tables, TableCharge(a)) {
      assert RamOf(db.ram, a) == Charge(db.tables, db.rows, a);
    }
  }

  lemma {:induction false} KeysCount(rows: seq<Row>, tid: nat)
    ensures |TableKeys(rows, tid)| == Sum(rows, InTable(tid))
  {
    if rows != [] {
      KeysCount(rows[1..], tid);
    }
  }
}
