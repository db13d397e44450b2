/** The contract tables as one plain map from (code, scope, table, primary key) to payer and value. */
module TableContents {
  import opened Basics
  import opened Sums
  import opened TableStore
  import opened TableTheory
  import opened TableIterators
  import opened TableRuns

  datatype Key = Key(code: nat, scope: nat, table: nat, primary: nat)

  /* ---------- the map ---------- */

  function KeyOf(tables: seq<Table>, tid: nat, pk: nat): Option<Key> {
    var i := TableById(tables, tid);
    if i < |tables| then Some(Key(tables[i].code, tables[i].scope, tables[i].name, pk)) else None
  }

  function KeyAt(db: Db, i: nat): Option<Key>
    requires i < |db.rows|
  {
    KeyOf(db.tables, db.rows[i].tid, db.rows[i].pk)
  }

  /** No two rows have the same key. */
  lemma {:induction false} OneRow(db: Db, i: nat, j: nat)
    requires Valid(db) && i < |db.rows| && j < |db.rows| && KeyAt(db, i).Some? && KeyAt(db, i) == KeyAt(db, j)
    ensures i == j
  {
    hide TableById, Sum, Conserved, Counted, RowsHoused;
    var a, b := TableById(db.tables, db.rows[i].tid), TableById(db.tables, db.rows[j].tid);
    assert SameName(db.tables[a], db.tables[b]);
  }

  lemma {:induction false} RowsDiffer(db: Db)
    requires Valid(db)
    ensures forall i, j :: 0 <= i < |db.rows| && 0 <= j < |db.rows| && KeyAt(db, i).Some? && KeyAt(db, i) == KeyAt(db, j) ==> i == j
  {
    hide KeyAt, Valid;
    forall i, j | 0 <= i < |db.rows| && 0 <= j < |db.rows| && KeyAt(db, i).Some? && KeyAt(db, i) == KeyAt(db, j)
      ensures i == j
    {
      OneRow(db, i, j);
    }
  }

  ghost function Contents(db: Db): map<Key, (Account, bytes)>
    requires Valid(db)
  {
    RowsDiffer(db);
    map i | 0 <= i < |db.rows| && KeyAt(db, i).Some? :: KeyAt(db, i).value := (db.rows[i].payer, db.rows[i].value)
  }

  lemma {:induction false} Entered(db: Db, i: nat)
    requires Valid(db) && i < |db.rows| && KeyAt(db, i).Some?
    ensures KeyAt(db, i).value in Contents(db)
    ensures Contents(db)[KeyAt(db, i).value] == (db.rows[i].payer, db.rows[i].value)
  {
    hide KeyAt, Valid;
    assert KeyAt(db, i).value in Contents(db);
    var j :| 0 <= j < |db.rows| && KeyAt(db, j).Some? && KeyAt(db, j).value == KeyAt(db, i).value
             && Contents(db)[KeyAt(db, i).value] == (db.rows[j].payer, db.rows[j].value);
    OneRow(db, i, j);
  }

  lemma {:induction false} EntryOf(db: Db, k: Key) returns (i: nat)
    requires Valid(db) && k in Contents(db)
    ensures i < |db.rows| && KeyAt(db, i) == Some(k) && Contents(db)[k] == (db.rows[i].payer, db.rows[i].value)
  {
    hide KeyAt, Valid;
    i :| i < |db.rows| && KeyAt(db, i).Some? && KeyAt(db, i).value == k
         && Contents(db)[k] == (db.rows[i].payer, db.rows[i].value);
  }

  /** A valid database has a table for every row. */
  lemma {:induction false} RowHasKey(db: Db, i: nat)
    requires Valid(db) && i < |db.rows|
    ensures KeyAt(db, i).Some? && KeyAt(db, i).value.primary == db.rows[i].pk
  {
    hide TableById, Sum, Conserved, Counted;
    assert HasTable(db.tables, db.rows[i].tid);
  }

  /* ---------- what keeps the names of tables ---------- */

  lemma {:induction false} TableByIdAt(tables: seq<Table>, nextId: nat, i: nat)
    requires TablesOrdered(tables, nextId) && i < |tables|
    ensures TableById(tables, tables[i].id) == i
  {
    hide TableById;
    assert tables[TableById(tables, tables[i].id)].id == tables[i].id;
  }

  lemma {:induction false} KeyAfterCount(tables: seq<Table>, nextId: nat, i: nat, count: int, tid: nat, pk: nat)
    requires TablesOrdered(tables, nextId) && i < |tables|
    ensures KeyOf(tables[i := tables[i].(count := count)], tid, pk) == KeyOf(tables, tid, pk)
  {
    hide TableById;
    var tables' := tables[i := tables[i].(count := count)];
    var a, b := TableById(tables, tid), TableById(tables', tid);
    assert forall j :: 0 <= j < |tables| ==> tables'[j].id == tables[j].id;
  }

  lemma {:induction false} KeyAfterAppend(tables: seq<Table>, nextId: nat, t: Table, tid: nat, pk: nat)
    requires TablesOrdered(tables, nextId) && t.id == nextId
    ensures KeyOf(tables, tid, pk).Some? ==> KeyOf(tables + [t], tid, pk) == KeyOf(tables, tid, pk)
    ensures KeyOf(tables + [t], nextId, pk) == Some(Key(t.code, t.scope, t.name, pk))
  {
    hide TableById;
    var a, b := TableById(tables, tid), TableById(tables + [t], tid);
    if a < |tables| {
      assert (tables + [t])[a].id == tid;
      assert b <= a;
      assert (tables + [t])[b] == tables[b];
    }
    var c := TableById(tables + [t], nextId);
    assert (tables + [t])[|tables|].id == nextId;
    assert forall j :: 0 <= j < |tables| ==> (tables + [t])[j] == tables[j];
  }

  lemma {:induction false} KeyAfterDrop(tables: seq<Table>, nextId: nat, i: nat, tid: nat, pk: nat)
    requires TablesOrdered(tables, nextId) && i < |tables| && tid != tables[i].id
    ensures KeyOf(RemoveAt(tables, i), tid, pk) == KeyOf(tables, tid, pk)
  {
    hide TableById;
    var rest := RemoveAt(tables, i);
    var a, b := TableById(tables, tid), TableById(rest, tid);
    assert forall j :: 0 <= j < |rest| ==> rest[j] == tables[if j < i then j else j + 1];
    if a < |tables| {
      assert rest[if a < i then a else a - 1] == tables[a];
    }
    if b < |rest| {
      TableByIdAt(tables, nextId, if b < i then b else b + 1);
    }
  }

  /* ---------- maps that differ in one key ---------- */

  /** Where row i is after a row is inserted at k, and after the row at p is removed. */
  function Up(k: nat, i: nat): nat {
    if i < k then i else i + 1
  }

  function Down(p: nat, i: nat): nat {
    if i <= p then i else i - 1
  }

  /** Row j of the new database is row i of the old one. */
  ghost predicate Kept(db: Db, db': Db, i: nat, j: nat) {
    && i < |db.rows| && j < |db'.rows| && KeyAt(db, i) == KeyAt(db', j)
    && db.rows[i].payer == db'.rows[j].payer && db.rows[i].value == db'.rows[j].value
  }

  lemma {:induction false} StoredMap(db: Db, db': Db, k: nat, key: Key)
    requires Valid(db) && Valid(db') && k <= |db.rows| && |db'.rows| == |db.rows| + 1 && KeyAt(db', k) == Some(key)
    requires forall i :: 0 <= i < |db.rows| ==> Kept(db, db', i, Up(k, i))
    ensures key !in Contents(db)
    ensures Contents(db') == Contents(db)[key := (db'.rows[k].payer, db'.rows[k].value)]
  {
    hide Valid, Contents, KeyAt;
    var m, m' := Contents(db), Contents(db');
    Entered(db', k);
    forall x | x in m ensures x != key && x in m' && m'[x] == m[x] {
      var i := EntryOf(db, x);
      var j := Up(k, i);
      assert Kept(db, db', i, j);
      Entered(db', j);
      if x == key {
        OneRow(db', j, k);
      }
    }
    forall x | x in m' && x != key ensures x in m {
      var j := EntryOf(db', x);
      var i := Down(k, j);
      assert Kept(db, db', i, Up(k, i));
      Entered(db, i);
    }
  }

  lemma {:induction false} UpdatedMap(db: Db, db': Db, p: nat, key: Key)
    requires Valid(db) && Valid(db') && |db'.rows| == |db.rows| && p < |db.rows|
    requires KeyAt(db, p) == Some(key) && KeyAt(db', p) == Some(key)
    requires forall i :: 0 <= i < |db.rows| && i != p ==> Kept(db, db', i, i)
    ensures key in Contents(db)
    ensures Contents(db') == Contents(db)[key := (db'.rows[p].payer, db'.rows[p].value)]
  {
    hide Valid, Contents, KeyAt;
    var m, m' := Contents(db), Contents(db');
    Entered(db, p);
    Entered(db', p);
    forall x | x in m && x != key ensures x in m' && m'[x] == m[x] {
      var i := EntryOf(db, x);
      assert Kept(db, db', i, i);
      Entered(db', i);
    }
    forall x | x in m' && x != key ensures x in m {
      var i := EntryOf(db', x);
      assert Kept(db, db', i, i);
      Entered(db, i);
    }
  }

  lemma {:induction false} RemovedMap(db: Db, db': Db, p: nat, key: Key)
    requires Valid(db) && Valid(db') && p < |db.rows| && |db'.rows| == |db.rows| - 1 && KeyAt(db, p) == Some(key)
    requires forall i :: 0 <= i < |db.rows| && i != p ==> Kept(db, db', i, Down(p, i))
    ensures key in Contents(db) && Contents(db') == Contents(db) - {key}
  {
    hide Valid, Contents, KeyAt;
    var m, m' := Contents(db), Contents(db');
    Entered(db, p);
    forall x | x in m && x != key ensures x in m' && m'[x] == m[x] {
      var i := EntryOf(db, x);
      var j := Down(p, i);
      assert Kept(db, db', i, j);
      Entered(db', j);
    }
    forall x | x in m' ensures x in m && x != key {
      var j := EntryOf(db', x);
      var i := Up(p, j);
      assert Kept(db, db', i, Down(p, i));
      Entered(db, i);
      if x == key {
        OneRow(db, i, p);
      }
    }
  }

  /* ---------- whose authority a charge needs ---------- */

  predicate MayCharge(env: Env, a: Account) {
    || env.privileged || a == env.receiver
    || (a in env.authorized && (env.billingInNotify || env.receiver == env.actAccount))
  }

  /** A refund always passes; a charge needs the authority, and then only that account's usage moves. */
  lemma {:induction false} UsageExactly(db: Db, env: Env, payer: Account, delta: int, a: Account)
    ensures var r := UpdateUsage(db, env, payer, delta);
            && (r.Some? <==> delta <= 0 || MayCharge(env, payer))
            && (r.Some? ==> r.value.(ram := db.ram) == db
                            && RamOf(r.value.ram, a) == RamOf(db.ram, a) + if a == payer then delta else 0)
  {
  }

  /* ---------- store ---------- */

  /** The index finds a key exactly when the map has it. */
  lemma {:induction false} KeyTaken(db: Db, i: nat, pk: nat)
    requires Valid(db) && i < |db.tables|
    ensures var t := db.tables[i];
            Position(db.rows, t.id, pk) < |db.rows| <==> Key(t.code, t.scope, t.name, pk) in Contents(db)
  {
    hide Position, TableById, Sum, Conserved, Counted, RowsHoused, Contents;
    var t, p := db.tables[i], Position(db.rows, db.tables[i].id, pk);
    var key := Key(t.code, t.scope, t.name, pk);
    TableByIdAt(db.tables, db.nextId, i);
    if p < |db.rows| {
      Entered(db, p);
    } else if key in Contents(db) {
      var j := EntryOf(db, key);
      assert SameName(db.tables[TableById(db.tables, db.rows[j].tid)], t);
      PositionComplete(db.rows, t.id, pk, j);
    }
  }

  lemma {:induction false} NoTableNoKey(db: Db, code: nat, scope: nat, name: nat, pk: nat)
    requires Valid(db) && FindTable(db.tables, code, scope, name) == |db.tables|
    ensures Key(code, scope, name, pk) !in Contents(db) && Position(db.rows, db.nextId, pk) == |db.rows|
  {
    hide Position, TableById, FindTable, Sum, Conserved, Counted, Contents;
    var key, p := Key(code, scope, name, pk), Position(db.rows, db.nextId, pk);
    if key in Contents(db) {
      var j := EntryOf(db, key);
    }
  }

  lemma {:induction false} StoreSucceeds(db: Db, env: Env, scope: nat, name: nat, payer: Account, pk: nat, value: bytes)
    requires Valid(db)
    ensures StoreRow(db, env, scope, name, payer, pk, value).Some? <==>
            payer != 0 && Key(env.receiver, scope, name, pk) !in Contents(db) && MayCharge(env, payer)
  {
    hide Position, LowerBound, FindTable, Valid, Contents, MayCharge, AddRam, InsertAt, UpdateUsage;
    var i := FindTable(db.tables, env.receiver, scope, name);
    UsageExactly(db, env, payer, TABLE_SIZE, payer);
    if i < |db.tables| {
      KeyTaken(db, i, pk);
    } else {
      NoTableNoKey(db, env.receiver, scope, name, pk);
    }
    var created := FindOrCreateTable(db, env, env.receiver, scope, name, payer);
    if created.Some? {
      var (db1, j) := created.value;
      var t, row := db1.tables[j], Row(db1.tables[j].id, pk, payer, value);
      var db2 := db1.(rows := InsertAt(db1.rows, LowerBound(db1.rows, t.id, pk), row),
                      tables := db1.tables[j := t.(count := t.count + 1)]);
      UsageExactly(db2, env, payer, RowCost(row), payer);
    }
  }

  /** What a store makes of the tables and the rows. */
  lemma {:induction false} StoredDb(db: Db, env: Env, scope: nat, name: nat, payer: Account, pk: nat, value: bytes)
    requires Valid(db) && StoreRow(db, env, scope, name, payer, pk, value).Some?
    ensures var (db', tid) := StoreRow(db, env, scope, name, payer, pk, value).value;
            && db'.rows == InsertAt(db.rows, LowerBound(db.rows, tid, pk), Row(tid, pk, payer, value))
            && KeyOf(db'.tables, tid, pk) == Some(Key(env.receiver, scope, name, pk))
            && forall i :: 0 <= i < |db.rows| ==> KeyOf(db'.tables, db.rows[i].tid, db.rows[i].pk) == KeyAt(db, i)
  {
    hide Position, LowerBound, InsertAt, Contents, KeyOf, Sum, Conserved, Counted, Sorted, RowsHoused, UpdateUsage;
    var (db', tid) := StoreRow(db, env, scope, name, payer, pk, value).value;
    var (db1, j) := FindOrCreateTable(db, env, env.receiver, scope, name, payer).value;
    CreatedKeys(db, env, env.receiver, scope, name, payer, pk);
    CreateKeeps(db, env, env.receiver, scope, name, payer);
    var t, row := db1.tables[j], Row(tid, pk, payer, value);
    var db2 := db1.(rows := InsertAt(db1.rows, LowerBound(db1.rows, t.id, pk), row),
                    tables := db1.tables[j := t.(count := t.count + 1)]);
    UsageMoves(db2, env, payer, RowCost(row));
    assert db'.tables == db1.tables[j := t.(count := t.count + 1)];
    KeyAfterCount(db1.tables, db1.nextId, j, t.count + 1, tid, pk);
    forall i | 0 <= i < |db.rows| ensures KeyOf(db'.tables, db.rows[i].tid, db.rows[i].pk) == KeyAt(db, i) {
      KeyAfterCount(db1.tables, db1.nextId, j, t.count + 1, db.rows[i].tid, db.rows[i].pk);
    }
  }

  lemma {:induction false} CreatedKeys(db: Db, env: Env, code: nat, scope: nat, name: nat, payer: Account, pk: nat)
    requires Valid(db) && FindOrCreateTable(db, env, code, scope, name, payer).Some?
    ensures var (db1, j) := FindOrCreateTable(db, env, code, scope, name, payer).value;
            && db1.rows == db.rows && KeyOf(db1.tables, db1.tables[j].id, pk) == Some(Key(code, scope, name, pk))
            && forall i :: 0 <= i < |db.rows| ==> KeyOf(db1.tables, db.rows[i].tid, db.rows[i].pk) == KeyAt(db, i)
  {
    hide FindTable, TableById, Sum, Conserved, Counted, Sorted, UpdateUsage, RowsHoused;
    var (db1, j) := FindOrCreateTable(db, env, code, scope, name, payer).value;
    if FindTable(db.tables, code, scope, name) < |db.tables| {
      TableByIdAt(db.tables, db.nextId, j);
    } else {
      var t := Table(db.nextId, code, scope, name, payer, 0);
      UsageMoves(db, env, payer, TABLE_SIZE);
      KeyAfterAppend(db.tables, db.nextId, t, db.nextId, pk);
      forall i | 0 <= i < |db.rows| ensures KeyOf(db1.tables, db.rows[i].tid, db.rows[i].pk) == KeyAt(db, i) {
        RowHasKey(db, i);
        KeyAfterAppend(db.tables, db.nextId, t, db.rows[i].tid, db.rows[i].pk);
      }
    }
  }

  /** A store succeeds exactly when the key is free and the payer may be charged, and adds exactly that entry. */
  lemma {:induction false} StoreRefines(db: Db, env: Env, scope: nat, name: nat, payer: Account, pk: nat, value: bytes)
    requires Valid(db)
    ensures var r, key := StoreRow(db, env, scope, name, payer, pk, value), Key(env.receiver, scope, name, pk);
            && (r.Some? <==> payer != 0 && key !in Contents(db) && MayCharge(env, payer))
            && (r.Some? ==>
                && Valid(r.value.0) && KeyOf(r.value.0.tables, r.value.1, pk) == Some(key)
                && Contents(r.value.0) == Contents(db)[key := (payer, value)])
  {
    hide Valid, Contents, StoreRow, LowerBound, KeyOf, MayCharge;
    StoreSucceeds(db, env, scope, name, payer, pk, value);
    if StoreRow(db, env, scope, name, payer, pk, value).Some? {
      var (db', tid) := StoreRow(db, env, scope, name, payer, pk, value).value;
      StoreKeeps(db, env, scope, name, payer, pk, value);
      StoredDb(db, env, scope, name, payer, pk, value);
      var k := LowerBound(db.rows, tid, pk);
      assert db'.rows[k] == Row(tid, pk, payer, value);
      forall i | 0 <= i < |db.rows| ensures Kept(db, db', i, Up(k, i)) {
        assert db'.rows[Up(k, i)] == db.rows[i];
      }
      StoredMap(db, db', k, Key(env.receiver, scope, name, pk));
    }
  }

  /* ---------- update and remove ---------- */

  /** An update of the receiver's row succeeds exactly when whoever pays more may be charged, and replaces exactly
      that entry by the new value, under the new payer if one is given. */
  lemma {:induction false} UpdateRefines(db: Db, env: Env, p: nat, i: nat, payer: Account, value: bytes)
    requires Valid(db) && p < |db.rows| && i < |db.tables| && db.tables[i].id == db.rows[p].tid
    ensures var r, prev := UpdateRow(db, env, p, i, payer, value), db.rows[p];
            var payer' := if payer == 0 then prev.payer else payer;
            var key := Key(db.tables[i].code, db.tables[i].scope, db.tables[i].name, prev.pk);
            && KeyAt(db, p) == Some(key)
            && (r.Some? <==> key.code == env.receiver
                             && (payer' != prev.payer || |value| > |prev.value| ==> MayCharge(env, payer')))
            && (r.Some? ==> Valid(r.value) && Contents(r.value) == Contents(db)[key := (payer', value)])
  {
    hide Contents, MayCharge, AddRam, TableById, Sum, Conserved, Counted, RowsHoused, TablesNamed, Sorted;
    var r, prev := UpdateRow(db, env, p, i, payer, value), db.rows[p];
    var payer' := if payer == 0 then prev.payer else payer;
    var row := prev.(payer := payer', value := value);
    TableByIdAt(db.tables, db.nextId, i);
    UpdateSucceeds(db, env, p, i, payer, value);
    if r.Some? {
      UpdateKeeps(db, env, p, i, payer, value);
      hide UpdateRow;
      forall j | 0 <= j < |db.rows| && j != p ensures Kept(db, r.value, j, j) {
        assert r.value.rows[j] == db.rows[j];
      }
      hide Valid;
      UpdatedMap(db, r.value, p, KeyAt(db, p).value);
    }
  }

  lemma {:induction false} UpdateSucceeds(db: Db, env: Env, p: nat, i: nat, payer: Account, value: bytes)
    requires p < |db.rows| && i < |db.tables|
    ensures var r, prev := UpdateRow(db, env, p, i, payer, value), db.rows[p];
            var payer' := if payer == 0 then prev.payer else payer;
            && (r.Some? <==> db.tables[i].code == env.receiver
                             && (payer' != prev.payer || |value| > |prev.value| ==> MayCharge(env, payer')))
            && (r.Some? ==> r.value.tables == db.tables
                            && r.value.rows == db.rows[p := Row(prev.tid, prev.pk, payer', value)])
  {
    hide MayCharge, UpdateUsage;
    var prev := db.rows[p];
    var payer' := if payer == 0 then prev.payer else payer;
    var cost, cost' := RowCost(prev), |value| + ROW_OVERHEAD;
    UsageExactly(db, env, prev.payer, -cost, payer);
    UsageExactly(db, env, prev.payer, cost' - cost, payer);
    if UpdateUsage(db, env, prev.payer, -cost).Some? {
      UsageExactly(UpdateUsage(db, env, prev.payer, -cost).value, env, payer', cost', payer);
    }
  }

  /** A removal of the receiver's row always succeeds and deletes exactly that entry. */
  lemma {:induction false} RemoveRefines(db: Db, env: Env, p: nat, i: nat)
    requires Valid(db) && p < |db.rows| && i < |db.tables| && db.tables[i].id == db.rows[p].tid
    ensures var r := RemoveRow(db, env, p, i);
            var key := Key(db.tables[i].code, db.tables[i].scope, db.tables[i].name, db.rows[p].pk);
            && KeyAt(db, p) == Some(key) && (r.Some? <==> key.code == env.receiver)
            && (r.Some? ==> Valid(r.value) && Contents(r.value) == Contents(db) - {key})
  {
    hide Contents, RemoveRow, TableById, Sum, Conserved, Counted, RowsHoused, TablesNamed, Sorted, RemoveAt;
    var r := RemoveRow(db, env, p, i);
    TableByIdAt(db.tables, db.nextId, i);
    RemovedDb(db, env, p, i);
    if r.Some? {
      RemoveKeeps(db, env, p, i);
      forall j | 0 <= j < |db.rows| && j != p ensures Kept(db, r.value, j, Down(p, j)) {
        RowAfterRemove(db, p, j);
        KeyAfterRemove(db, r.value, i, p, j);
      }
      hide Valid;
      UpperRows(db.rows, p);
      RemovedMap(db, r.value, p, KeyAt(db, p).value);
    }
  }

  lemma {:induction false} UpperRows(rows: seq<Row>, p: nat)
    requires p < |rows|
    ensures |RemoveAt(rows, p)| == |rows| - 1
  {
  }

  lemma {:induction false} RowAfterRemove(db: Db, p: nat, j: nat)
    requires p < |db.rows| && j < |db.rows| && j != p
    ensures Down(p, j) < |RemoveAt(db.rows, p)| && RemoveAt(db.rows, p)[Down(p, j)] == db.rows[j]
  {
  }

  lemma {:induction false} RemovedDb(db: Db, env: Env, p: nat, i: nat)
    requires p < |db.rows| && i < |db.tables|
    ensures var r, t := RemoveRow(db, env, p, i), db.tables[i];
            var recounted := db.tables[i := t.(count := t.count - 1)];
            && (r.Some? <==> t.code == env.receiver)
            && (r.Some? ==> r.value.rows == RemoveAt(db.rows, p)
                            && r.value.tables == if t.count == 1 then RemoveAt(recounted, i) else recounted)
  {
    hide UpdateUsage, RemoveAt;
    var row, t := db.rows[p], db.tables[i];
    UsageExactly(db, env, row.payer, -RowCost(row), 0);
    var db1 := UpdateUsage(db, env, row.payer, -RowCost(row)).value;
    var db2 := db1.(tables := db1.tables[i := t.(count := t.count - 1)], rows := RemoveAt(db1.rows, p));
    UsageExactly(db2, env, t.payer, -TABLE_SIZE, 0);
  }

  /** The other rows keep their keys: an emptied table has none. */
  lemma {:induction false} KeyAfterRemove(db: Db, db': Db, i: nat, p: nat, j: nat)
    requires Valid(db) && p < |db.rows| && i < |db.tables| && db.tables[i].id == db.rows[p].tid && j < |db.rows| && j != p
    requires var t := db.tables[i];
             var recounted := db.tables[i := t.(count := t.count - 1)];
             db'.tables == if t.count == 1 then RemoveAt(recounted, i) else recounted
    ensures KeyOf(db'.tables, db.rows[j].tid, db.rows[j].pk) == KeyAt(db, j)
  {
    hide Sum, Conserved, RowsHoused, Sorted, RemoveAt, KeyOf;
    var t, row := db.tables[i], db.rows[j];
    var recounted := db.tables[i := t.(count := t.count - 1)];
    KeyAfterCount(db.tables, db.nextId, i, t.count - 1, row.tid, row.pk);
    if t.count == 1 {
      if row.tid == t.id {
        TwoInTable(db.rows, t.id, p, j);
      }
      KeyAfterDrop(recounted, db.nextId, i, row.tid, row.pk);
    }
  }

  lemma {:induction false} TwoInTable(rows: seq<Row>, tid: nat, p: nat, j: nat)
    requires p < |rows| && j < |rows| && p != j && rows[p].tid == tid && rows[j].tid == tid
    ensures Sum(rows, InTable(tid)) >= 2
  {
    SumRemove(rows, p, InTable(tid));
    var rest := RemoveAt(rows, p);
    assert rest[Down(p, j)] == rows[j];
    hide Sum;
    PositiveCount(rest, tid);
  }

  /* ---------- every call of every run ---------- */

  /** The key of the row behind an iterator. */
  function Behind(st: State, it: int): Option<Key> {
    var ref :- Get(st.cache, it);
    KeyOf(st.db.tables, ref.tid, ref.pk)
  }

  function Target(st: State, call: Call): Option<Key> {
    match call
    case UpdateCall(_, it, _, _) => Behind(st, it)
    case RemoveCall(_, it) => Behind(st, it)
    case _ => None
  }

  /** What a call does to a plain map; `target` is the key behind the iterator it is given. */
  function Plain(m: map<Key, (Account, bytes)>, call: Call, target: Option<Key>): map<Key, (Account, bytes)> {
    match call
    case StoreCall(env, scope, name, payer, pk, value) =>
      var key := Key(env.receiver, scope, name, pk);
      if payer != 0 && key !in m && MayCharge(env, payer) then m[key := (payer, value)] else m
    case UpdateCall(env, it, payer, value) =>
      if target.None? || target.value !in m || target.value.code != env.receiver then m
      else
        var (payer0, value0) := m[target.value];
        var payer1 := if payer == 0 then payer0 else payer;
        if (payer1 == payer0 && |value| <= |value0|) || MayCharge(env, payer1) then m[target.value := (payer1, value)] else m
    case RemoveCall(env, it) =>
      if target.Some? && target.value.code == env.receiver then m - {target.value} else m
    case _ => m
  }

  lemma {:induction false} Located(st: State, it: int)
    requires StateValid(st)
    ensures Locate(st, it).Some? <==> Behind(st, it).Some?
    ensures Locate(st, it).Some? ==>
              var (p, i) := Locate(st, it).value;
              && st.db.tables[i].id == st.db.rows[p].tid && KeyAt(st.db, p) == Behind(st, it)
              && KeyAt(st.db, p).value in Contents(st.db)
              && Contents(st.db)[KeyAt(st.db, p).value] == (st.db.rows[p].payer, st.db.rows[p].value)
  {
    hide Contents, TableById, Position, Valid, CacheValid;
    LocateSucceeds(st, it);
    if Locate(st, it).Some? {
      var (p, i) := Locate(st, it).value;
      RowHasKey(st.db, p);
      hide KeyAt;
      Entered(st.db, p);
    }
  }

  lemma {:induction false} ReadsKeep(st: State, call: Call)
    requires StateValid(st) && !call.StoreCall? && !call.UpdateCall? && !call.RemoveCall?
    ensures Step(st, call).db == st.db
  {
    hide Position, LowerBound, UpperBound, TableUpperBound, FindTable, CacheTable, AddRef, StateValid;
  }

  /** Every call is exactly one operation on the plain map, and succeeds exactly when that one says so. */
  lemma {:induction false} StepRefines(st: State, call: Call)
    requires StateValid(st)
    ensures Valid(Step(st, call).db)
    ensures Contents(Step(st, call).db) == Plain(Contents(st.db), call, Target(st, call))
  {
    hide Valid, CacheValid, Contents, StoreRow, UpdateRow, RemoveRow, Locate, Behind, KeyAt, MayCharge, AddRef, CacheTable;
    match call
    case StoreCall(env, scope, name, payer, pk, value) =>
      StoreRefines(st.db, env, scope, name, payer, pk, value);
    case UpdateCall(env, it, payer, value) =>
      Located(st, it);
      if Locate(st, it).Some? {
        var (p, i) := Locate(st, it).value;
        UpdateRefines(st.db, env, p, i, payer, value);
      }
    case RemoveCall(env, it) =>
      Located(st, it);
      if Locate(st, it).Some? {
        var (p, i) := Locate(st, it).value;
        RemoveRefines(st.db, env, p, i);
      }
    case _ =>
      ReadsKeep(st, call);
  }

  /** The iterator a store returns stands for the key it stored. */
  lemma {:induction false} StoredIterator(st: State, env: Env, scope: nat, name: nat, payer: Account, pk: nat, value: bytes)
    requires StateValid(st) && Store(st, env, scope, name, payer, pk, value).Some?
    ensures var (st', it) := Store(st, env, scope, name, payer, pk, value).value;
            Behind(st', it) == Some(Key(env.receiver, scope, name, pk))
  {
    hide Valid, CacheValid, Contents, StoreRow, KeyOf, CacheTable;
    StoreRefines(st.db, env, scope, name, payer, pk, value);
  }

  /** The calls of a run, each on the map the calls before it left. */
  function PlainRun(m: map<Key, (Account, bytes)>, calls: seq<Call>, targets: seq<Option<Key>>): map<Key, (Account, bytes)>
    requires |targets| == |calls|
    decreases |calls|
  {
    if calls == [] then m else PlainRun(Plain(m, calls[0], targets[0]), calls[1..], targets[1..])
  }

  function Targets(st: State, calls: seq<Call>): (ks: seq<Option<Key>>)
    ensures |ks| == |calls|
    decreases |calls|
  {
    if calls == [] then [] else [Target(st, calls[0])] + Targets(Step(st, calls[0]), calls[1..])
  }

  lemma {:induction false} RunRefines(st: State, calls: seq<Call>)
    requires StateValid(st)
    ensures Valid(Run(st, calls).db)
    ensures Contents(Run(st, calls).db) == PlainRun(Contents(st.db), calls, Targets(st, calls))
    decreases |calls|
  {
    hide Valid, CacheValid, Contents, Step, Target, Plain;
    if calls != [] {
      StepKeeps(st, calls[0]);
      StepRefines(st, calls[0]);
      RunRefines(Step(st, calls[0]), calls[1..]);
      assert Targets(st, calls)[1..] == Targets(Step(st, calls[0]), calls[1..]);
    }
  }

  /* ---------- charges over a run ---------- */

  /** The call could charge `a`. */
  predicate Charging(call: Call, a: Account) {
    match call
    case StoreCall(env, _, _, _, _, _) => MayCharge(env, a)
    case UpdateCall(env, _, _, _) => MayCharge(env, a)
    case _ => false
  }

  lemma {:induction false} UsageGrows(db: Db, env: Env, payer: Account, delta: int, a: Account)
    ensures var r := UpdateUsage(db, env, payer, delta);
            r.Some? && RamOf(r.value.ram, a) > RamOf(db.ram, a) ==> MayCharge(env, a)
  {
  }

  /** A charge grows only as the receiver's, by a privileged receiver or with the account's authority. */
  lemma {:induction false} StepCharges(st: State, call: Call, a: Account)
    requires StateValid(st) && !Charging(call, a)
    ensures RamOf(Step(st, call).db.ram, a) <= RamOf(st.db.ram, a)
  {
    hide StateValid, Position, LowerBound, FindTable, InsertAt, RemoveAt, CacheTable, AddRef, Locate, RamOf;
    match call
    case StoreCall(env, scope, name, payer, pk, value) =>
      StoreCharges(st.db, env, scope, name, payer, pk, value, a);
    case UpdateCall(env, it, payer, value) =>
      if Locate(st, it).Some? {
        UpdateCharges(st.db, env, Locate(st, it).value.0, Locate(st, it).value.1, payer, value, a);
      }
    case RemoveCall(env, it) =>
      if Locate(st, it).Some? {
        RemoveCharges(st.db, env, Locate(st, it).value.0, Locate(st, it).value.1, a);
      }
    case _ =>
      ReadsKeep(st, call);
  }

  lemma {:induction false} StoreCharges(db: Db, env: Env, scope: nat, name: nat, payer: Account, pk: nat, value: bytes, a: Account)
    requires !MayCharge(env, a)
    ensures var r := StoreRow(db, env, scope, name, payer, pk, value);
            r.Some? ==> RamOf(r.value.0.ram, a) <= RamOf(db.ram, a)
  {
    hide Position, LowerBound, FindTable, InsertAt, RamOf, MayCharge, UpdateUsage;
    if StoreRow(db, env, scope, name, payer, pk, value).Some? {
      UsageGrows(db, env, payer, TABLE_SIZE, a);
      var (db1, i) := FindOrCreateTable(db, env, env.receiver, scope, name, payer).value;
      var t, row := db1.tables[i], Row(db1.tables[i].id, pk, payer, value);
      var db2 := db1.(rows := InsertAt(db1.rows, LowerBound(db1.rows, t.id, pk), row),
                      tables := db1.tables[i := t.(count := t.count + 1)]);
      UsageGrows(db2, env, payer, RowCost(row), a);
    }
  }

  lemma {:induction false} UpdateCharges(db: Db, env: Env, p: nat, i: nat, payer: Account, value: bytes, a: Account)
    requires p < |db.rows| && i < |db.tables| && !MayCharge(env, a)
    ensures var r := UpdateRow(db, env, p, i, payer, value);
            r.Some? ==> RamOf(r.value.ram, a) <= RamOf(db.ram, a)
  {
    hide RamOf, MayCharge, UpdateUsage;
    var prev := db.rows[p];
    var payer' := if payer == 0 then prev.payer else payer;
    var cost, cost' := RowCost(prev), |value| + ROW_OVERHEAD;
    UsageGrows(db, env, prev.payer, -cost, a);
    UsageGrows(db, env, prev.payer, cost' - cost, a);
    if UpdateUsage(db, env, prev.payer, -cost).Some? {
      UsageGrows(UpdateUsage(db, env, prev.payer, -cost).value, env, payer', cost', a);
    }
  }

  lemma {:induction false} RemoveCharges(db: Db, env: Env, p: nat, i: nat, a: Account)
    requires p < |db.rows| && i < |db.tables|
    ensures var r := RemoveRow(db, env, p, i); r.Some? ==> RamOf(r.value.ram, a) <= RamOf(db.ram, a)
  {
    hide RamOf, UpdateUsage, RemoveAt;
    if RemoveRow(db, env, p, i).Some? {
      var row, t := db.rows[p], db.tables[i];
      UsageExactly(db, env, row.payer, -RowCost(row), a);
      var db1 := UpdateUsage(db, env, row.payer, -RowCost(row)).value;
      var db2 := db1.(tables := db1.tables[i := t.(count := t.count - 1)], rows := RemoveAt(db1.rows, p));
      UsageExactly(db2, env, t.payer, -TABLE_SIZE, a);
    }
  }

  /** Over any run: an account that no call could charge is not charged. */
  lemma {:induction false} RunCharges(st: State, calls: seq<Call>, a: Account)
    requires StateValid(st) && forall call <- calls :: !Charging(call, a)
    ensures RamOf(Run(st, calls).db.ram, a) <= RamOf(st.db.ram, a)
    decreases |calls|
  {
    hide StateValid, Step, Charging, RamOf;
    if calls != [] {
      StepKeeps(st, calls[0]);
      StepCharges(st, calls[0], a);
      RunCharges(Step(st, calls[0]), calls[1..], a);
    }
  }
}
