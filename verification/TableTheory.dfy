/** What every store, update and remove keeps: row counts, table existence and RAM charges. */
module TableTheory {
  import opened Basics
  import opened Sums
  import opened TableStore

  /** What an account should be paying: the rows and the tables that name it as payer. */
  ghost function Charge(tables: seq<Table>, rows: seq<Row>, a: Account): int {
    Sum(rows, RowCharge(a)) + Sum(tables, TableCharge(a))
  }

  ghost predicate TablesOrdered(tables: seq<Table>, nextId: nat) {
    && (forall i, j :: 0 <= i < j < |tables| ==> tables[i].id < tables[j].id)
    && (forall i :: 0 <= i < |tables| ==> tables[i].id < nextId)
  }

  ghost predicate SameName(t: Table, u: Table) {
    t.code == u.code && t.scope == u.scope && t.name == u.name
  }

  ghost predicate TablesNamed(tables: seq<Table>) {
    forall i, j :: 0 <= i < j < |tables| ==> !SameName(tables[i], tables[j])
  }

  /** Each table's count is the number of its rows. */
  ghost predicate Counted(tables: seq<Table>, rows: seq<Row>) {
    forall i :: 0 <= i < |tables| ==> tables[i].count == Sum(rows, InTable(tables[i].id))
  }

  ghost predicate HasTable(tables: seq<Table>, tid: nat) {
    exists i :: 0 <= i < |tables| && tables[i].id == tid
  }

  ghost predicate RowsHoused(tables: seq<Table>, rows: seq<Row>) {
    forall i :: 0 <= i < |rows| ==> HasTable(tables, rows[i].tid)
  }

  /** Each account's net charge is what it pays for. */
  ghost predicate Conserved(tables: seq<Table>, rows: seq<Row>, ram: map<Account, int>) {
    forall a :: RamOf(ram, a) == Charge(tables, rows, a)
  }

  ghost predicate Nonempty(tables: seq<Table>) {
    forall i :: 0 <= i < |tables| ==> tables[i].count > 0
  }

  /** Everything but the rule that a table has a row. */
  ghost predicate Consistent(db: Db) {
    && Sorted(db.rows)
    && TablesOrdered(db.tables, db.nextId)
    && TablesNamed(db.tables)
    && Counted(db.tables, db.rows)
    && RowsHoused(db.tables, db.rows)
    && Conserved(db.tables, db.rows, db.ram)
  }

  ghost predicate Valid(db: Db) {
    Consistent(db) && Nonempty(db.tables)
  }

  lemma {:induction false} EmptyIsValid()
    ensures Valid(Db([], [], 0, map[]))
  {
  }

  /** A valid database has a table exactly where it has a row. */
  lemma {:induction false} TableIffRow(db: Db, tid: nat)
    requires Valid(db)
    ensures HasTable(db.tables, tid) <==> exists i :: 0 <= i < |db.rows| && db.rows[i].tid == tid
  {
    hide Sum;
    PositiveCount(db.rows, tid);
    if HasTable(db.tables, tid) {
      var i :| 0 <= i < |db.tables| && db.tables[i].id == tid;
    }
  }

  lemma {:induction false} PositiveCount(rows: seq<Row>, tid: nat)
    ensures Sum(rows, InTable(tid)) >= 0
    ensures Sum(rows, InTable(tid)) > 0 <==> exists i :: 0 <= i < |rows| && rows[i].tid == tid
  {
    if rows != [] {
      PositiveCount(rows[1..], tid);
      assert forall i :: 0 < i < |rows| ==> rows[i] == rows[1..][i - 1];
      if rows[0].tid != tid {
        if i :| 0 <= i < |rows| && rows[i].tid == tid {
          assert rows[1..][i - 1].tid == tid;
        }
      }
    }
  }

  /* ---------- charging ---------- */

  /** Usage moved by `delta` for one account and for no other. */
  ghost predicate Shifted(ram: map<Account, int>, ram': map<Account, int>, payer: Account, delta: int) {
    forall a :: RamOf(ram', a) == RamOf(ram, a) + if a == payer then delta else 0
  }

  lemma {:induction false} UsageMoves(db: Db, env: Env, payer: Account, delta: int)
    requires UpdateUsage(db, env, payer, delta).Some?
    ensures UpdateUsage(db, env, payer, delta).value.(ram := db.ram) == db
    ensures Shifted(db.ram, UpdateUsage(db, env, payer, delta).value.ram, payer, delta)
  {
  }

  /* ---------- the parts of a change ---------- */

  lemma {:induction false} SortedInsert(rows: seq<Row>, row: Row)
    requires Sorted(rows) && Position(rows, row.tid, row.pk) == |rows|
    ensures Sorted(InsertAt(rows, LowerBound(rows, row.tid, row.pk), row))
  {
    var k := LowerBound(rows, row.tid, row.pk);
    var s := InsertAt(rows, k, row);
    forall i, j | 0 <= i < j < |s| ensures RowLess(s[i], s[j]) {
      if j == k {
      } else if i == k {
        assert s[j] == rows[j - 1];
        assert k < j - 1 ==> RowLess(rows[k], rows[j - 1]);
      } else {
        var i', j' := if i < k then i else i - 1, if j < k then j else j - 1;
        assert s[i] == rows[i'] && s[j] == rows[j'];
      }
    }
  }

  lemma {:induction false} SortedRemove(rows: seq<Row>, p: nat)
    requires Sorted(rows) && p < |rows|
    ensures Sorted(RemoveAt(rows, p))
  {
    var s := RemoveAt(rows, p);
    forall i, j | 0 <= i < j < |s| ensures RowLess(s[i], s[j]) {
      var i', j' := if i < p then i else i + 1, if j < p then j else j + 1;
      assert s[i] == rows[i'] && s[j] == rows[j'];
    }
  }

  lemma {:induction false} CountedInsert(tables: seq<Table>, rows: seq<Row>, nextId: nat, i: nat, k: nat, row: Row)
    requires Counted(tables, rows) && TablesOrdered(tables, nextId)
    requires i < |tables| && k <= |rows| && row.tid == tables[i].id
    ensures Counted(tables[i := tables[i].(count := tables[i].count + 1)], InsertAt(rows, k, row))
  {
    hide Sum, InsertAt;
    forall j | 0 <= j < |tables| ensures Sum(InsertAt(rows, k, row), InTable(tables[j].id)) == Sum(rows, InTable(tables[j].id)) + if j == i then 1 else 0 {
      SumInsert(rows, k, row, InTable(tables[j].id));
    }
  }

  lemma {:induction false} CountedRemove(tables: seq<Table>, rows: seq<Row>, nextId: nat, i: nat, p: nat)
    requires Counted(tables, rows) && TablesOrdered(tables, nextId)
    requires i < |tables| && p < |rows| && rows[p].tid == tables[i].id
    ensures Counted(tables[i := tables[i].(count := tables[i].count - 1)], RemoveAt(rows, p))
  {
    hide Sum, RemoveAt;
    forall j | 0 <= j < |tables| ensures Sum(RemoveAt(rows, p), InTable(tables[j].id)) == Sum(rows, InTable(tables[j].id)) - if j == i then 1 else 0 {
      SumRemove(rows, p, InTable(tables[j].id));
    }
  }

  lemma {:induction false} CountedReplace(tables: seq<Table>, rows: seq<Row>, p: nat, row: Row)
    requires Counted(tables, rows) && p < |rows| && row.tid == rows[p].tid
    ensures Counted(tables, rows[p := row])
  {
    hide Sum;
    forall j | 0 <= j < |tables| ensures Sum(rows[p := row], InTable(tables[j].id)) == Sum(rows, InTable(tables[j].id)) {
      SumReplace(rows, p, row, InTable(tables[j].id));
    }
  }

  /** Recounting a table does not move any charge. */
  lemma {:induction false} RecountCharge(tables: seq<Table>, i: nat, count: int, a: Account)
    requires i < |tables|
    ensures Sum(tables[i := tables[i].(count := count)], TableCharge(a)) == Sum(tables, TableCharge(a))
  {
    hide Sum;
    SumReplace(tables, i, tables[i].(count := count), TableCharge(a));
  }

  lemma {:induction false} ConservedInsert(tables: seq<Table>, rows: seq<Row>, ram: map<Account, int>, ram': map<Account, int>,
                                           i: nat, count: int, k: nat, row: Row)
    requires Conserved(tables, rows, ram) && Shifted(ram, ram', row.payer, RowCost(row))
    requires i < |tables| && k <= |rows|
    ensures Conserved(tables[i := tables[i].(count := count)], InsertAt(rows, k, row), ram')
  {
    hide Sum, InsertAt, RowCost, RamOf;
    var tables', rows' := tables[i := tables[i].(count := count)], InsertAt(rows, k, row);
    forall a ensures RamOf(ram', a) == Charge(tables', rows', a) {
      SumInsert(rows, k, row, RowCharge(a));
      RecountCharge(tables, i, count, a);
      assert RamOf(ram, a) == Charge(tables, rows, a);
    }
  }

  lemma {:induction false} ConservedRemove(tables: seq<Table>, rows: seq<Row>, ram: map<Account, int>, ram': map<Account, int>,
                                           i: nat, count: int, p: nat)
    requires p < |rows| && i < |tables|
    requires Conserved(tables, rows, ram) && Shifted(ram, ram', rows[p].payer, -RowCost(rows[p]))
    ensures Conserved(tables[i := tables[i].(count := count)], RemoveAt(rows, p), ram')
  {
    hide Sum, RemoveAt, RowCost, RamOf;
    var tables', rows' := tables[i := tables[i].(count := count)], RemoveAt(rows, p);
    forall a ensures RamOf(ram', a) == Charge(tables', rows', a) {
      SumRemove(rows, p, RowCharge(a));
      RecountCharge(tables, i, count, a);
      assert RamOf(ram, a) == Charge(tables, rows, a);
    }
  }

  /** Replacing a row, whoever pays before and after. */
  lemma {:induction false} ConservedReplace(tables: seq<Table>, rows: seq<Row>, ram: map<Account, int>, ram': map<Account, int>,
                                            p: nat, row: Row)
    requires p < |rows| && Conserved(tables, rows, ram)
    requires forall a :: RamOf(ram', a) == RamOf(ram, a) - RowCharge(a)(rows[p]) + RowCharge(a)(row)
    ensures Conserved(tables, rows[p := row], ram')
  {
    hide Sum, RowCost, RamOf;
    forall a ensures RamOf(ram', a) == Charge(tables, rows[p := row], a) {
      SumReplace(rows, p, row, RowCharge(a));
      assert RamOf(ram, a) == Charge(tables, rows, a);
    }
  }

  lemma {:induction false} ConservedAddTable(tables: seq<Table>, rows: seq<Row>, ram: map<Account, int>, ram': map<Account, int>, t: Table)
    requires Conserved(tables, rows, ram) && Shifted(ram, ram', t.payer, TABLE_SIZE)
    ensures Conserved(tables + [t], rows, ram')
  {
    hide Sum, RamOf;
    forall a ensures RamOf(ram', a) == Charge(tables + [t], rows, a) {
      SumAppend(tables, [t], TableCharge(a));
      SumOne(t, TableCharge(a));
      assert RamOf(ram, a) == Charge(tables, rows, a);
    }
  }

  lemma {:induction false} ConservedDropTable(tables: seq<Table>, rows: seq<Row>, ram: map<Account, int>, ram': map<Account, int>, i: nat)
    requires i < |tables|
    requires Conserved(tables, rows, ram) && Shifted(ram, ram', tables[i].payer, -TABLE_SIZE)
    ensures Conserved(RemoveAt(tables, i), rows, ram')
  {
    hide Sum, RemoveAt, RamOf;
    forall a ensures RamOf(ram', a) == Charge(RemoveAt(tables, i), rows, a) {
      SumRemove(tables, i, TableCharge(a));
      assert RamOf(ram, a) == Charge(tables, rows, a);
    }
  }

  /** Recounting leaves ids, names and housing alone. */
  lemma {:induction false} RecountKeeps(tables: seq<Table>, rows: seq<Row>, nextId: nat, i: nat, count: int)
    requires i < |tables| && TablesOrdered(tables, nextId) && TablesNamed(tables) && RowsHoused(tables, rows)
    ensures var tables' := tables[i := tables[i].(count := count)];
            TablesOrdered(tables', nextId) && TablesNamed(tables') && RowsHoused(tables', rows)
  {
    var tables' := tables[i := tables[i].(count := count)];
    forall k | 0 <= k < |rows| ensures HasTable(tables', rows[k].tid) {
      var j :| 0 <= j < |tables| && tables[j].id == rows[k].tid;
      assert tables'[j].id == rows[k].tid;
    }
  }

  lemma {:induction false} NoRowsYet(tables: seq<Table>, rows: seq<Row>, nextId: nat)
    requires RowsHoused(tables, rows) && TablesOrdered(tables, nextId)
    ensures Sum(rows, InTable(nextId)) == 0
  {
    hide Sum;
    PositiveCount(rows, nextId);
  }

  lemma {:induction false} HousedAppend(tables: seq<Table>, rows: seq<Row>, t: Table)
    requires RowsHoused(tables, rows)
    ensures RowsHoused(tables + [t], rows)
  {
    forall k | 0 <= k < |rows| ensures HasTable(tables + [t], rows[k].tid) {
      var j :| 0 <= j < |tables| && tables[j].id == rows[k].tid;
      assert (tables + [t])[j].id == rows[k].tid;
    }
  }

  lemma {:induction false} HousedDrop(tables: seq<Table>, rows: seq<Row>, i: nat)
    requires RowsHoused(tables, rows) && i < |tables| && Sum(rows, InTable(tables[i].id)) == 0
    ensures RowsHoused(RemoveAt(tables, i), rows)
  {
    PositiveCount(rows, tables[i].id);
    var tables' := RemoveAt(tables, i);
    forall k | 0 <= k < |rows| ensures HasTable(tables', rows[k].tid) {
      var j :| 0 <= j < |tables| && tables[j].id == rows[k].tid;
      assert tables'[if j < i then j else j - 1].id == rows[k].tid;
    }
  }

  lemma {:induction false} TablesAfterRemove(tables: seq<Table>, nextId: nat, i: nat)
    requires i < |tables| && TablesOrdered(tables, nextId) && TablesNamed(tables)
    ensures TablesOrdered(RemoveAt(tables, i), nextId) && TablesNamed(RemoveAt(tables, i))
  {
    var tables' := RemoveAt(tables, i);
    assert forall j :: 0 <= j < |tables'| ==> tables'[j] == tables[if j < i then j else j + 1];
  }

  /* ---------- the operations ---------- */

  lemma {:induction false} CreateKeeps(db: Db, env: Env, code: nat, scope: nat, name: nat, payer: Account)
    requires Valid(db) && FindOrCreateTable(db, env, code, scope, name, payer).Some?
    ensures var (db', i) := FindOrCreateTable(db, env, code, scope, name, payer).value;
            && Consistent(db') && db'.rows == db.rows
            && db'.tables[i].code == code && db'.tables[i].scope == scope && db'.tables[i].name == name
            && (forall j :: 0 <= j < |db'.tables| && j != i ==> db'.tables[j].count > 0)
  {
    hide Sum, FindTable, Conserved, RowsHoused, UpdateUsage, Charge;
    var (db', i) := FindOrCreateTable(db, env, code, scope, name, payer).value;
    if FindTable(db.tables, code, scope, name) == |db.tables| {
      var t := Table(db.nextId, code, scope, name, payer, 0);
      UsageMoves(db, env, payer, TABLE_SIZE);
      ConservedAddTable(db.tables, db.rows, db.ram, db'.ram, t);
      NoRowsYet(db.tables, db.rows, db.nextId);
      HousedAppend(db.tables, db.rows, t);
    }
  }

  lemma {:induction false} StoreKeeps(db: Db, env: Env, scope: nat, name: nat, payer: Account, pk: nat, value: bytes)
    requires Valid(db) && StoreRow(db, env, scope, name, payer, pk, value).Some?
    ensures Valid(StoreRow(db, env, scope, name, payer, pk, value).value.0)
  {
    hide FindOrCreateTable, LowerBound, Position, UpdateUsage, Sum, InsertAt;
    hide Sorted, TablesOrdered, TablesNamed, Counted, RowsHoused, Conserved, Shifted;
    var db' := StoreRow(db, env, scope, name, payer, pk, value).value.0;
    var (db1, i) := FindOrCreateTable(db, env, env.receiver, scope, name, payer).value;
    CreateKeeps(db, env, env.receiver, scope, name, payer);
    var t := db1.tables[i];
    var row := Row(t.id, pk, payer, value);
    var k := LowerBound(db1.rows, t.id, pk);
    var tables' := db1.tables[i := t.(count := t.count + 1)];
    var db2 := db1.(rows := InsertAt(db1.rows, k, row), tables := tables');
    UsageMoves(db2, env, payer, RowCost(row));
    SortedInsert(db1.rows, row);
    CountedInsert(db1.tables, db1.rows, db1.nextId, i, k, row);
    ConservedInsert(db1.tables, db1.rows, db1.ram, db'.ram, i, t.count + 1, k, row);
    RecountKeeps(db1.tables, db1.rows, db1.nextId, i, t.count + 1);
    HousedInsert(tables', db1.rows, k, row, i);
    CountNonnegative(db1, i);
  }

  lemma {:induction false} CountNonnegative(db: Db, i: nat)
    requires Consistent(db) && i < |db.tables|
    ensures db.tables[i].count >= 0
  {
    hide Sum;
    PositiveCount(db.rows, db.tables[i].id);
  }

  lemma {:induction false} HousedInsert(tables: seq<Table>, rows: seq<Row>, k: nat, row: Row, i: nat)
    requires RowsHoused(tables, rows) && k <= |rows| && i < |tables| && tables[i].id == row.tid
    ensures RowsHoused(tables, InsertAt(rows, k, row))
  {
    var rows' := InsertAt(rows, k, row);
    forall j | 0 <= j < |rows'| ensures HasTable(tables, rows'[j].tid) {
      if j != k {
        assert rows'[j] == rows[if j < k then j else j - 1];
      }
    }
  }

  lemma {:induction false} HousedRemove(tables: seq<Table>, rows: seq<Row>, p: nat)
    requires RowsHoused(tables, rows) && p < |rows|
    ensures RowsHoused(tables, RemoveAt(rows, p))
  {
    var rows' := RemoveAt(rows, p);
    forall j | 0 <= j < |rows'| ensures HasTable(tables, rows'[j].tid) {
      assert rows'[j] == rows[if j < p then j else j + 1];
    }
  }

  lemma {:induction false} UpdateKeeps(db: Db, env: Env, p: nat, i: nat, payer: Account, value: bytes)
    requires Valid(db) && p < |db.rows| && i < |db.tables| && UpdateRow(db, env, p, i, payer, value).Some?
    ensures Valid(UpdateRow(db, env, p, i, payer, value).value)
  {
    hide Sum, Conserved, Counted, RowsHoused, TablesOrdered, TablesNamed;
    var db' := UpdateRow(db, env, p, i, payer, value).value;
    var row := db'.rows[p];
    assert db'.tables == db.tables && db'.rows == db.rows[p := row];
    assert row.tid == db.rows[p].tid && row.pk == db.rows[p].pk;
    CountedReplace(db.tables, db.rows, p, row);
    ConservedReplace(db.tables, db.rows, db.ram, db'.ram, p, row);
    HousedReplace(db.tables, db.rows, p, row);
  }

  lemma {:induction false} HousedReplace(tables: seq<Table>, rows: seq<Row>, p: nat, row: Row)
    requires RowsHoused(tables, rows) && p < |rows| && row.tid == rows[p].tid
    ensures RowsHoused(tables, rows[p := row])
  {
  }

  lemma {:induction false} RemoveKeeps(db: Db, env: Env, p: nat, i: nat)
    requires Valid(db) && p < |db.rows| && i < |db.tables| && db.tables[i].id == db.rows[p].tid
    requires RemoveRow(db, env, p, i).Some?
    ensures Valid(RemoveRow(db, env, p, i).value)
  {
    hide UpdateUsage, Sum, RemoveAt, RowCost;
    hide Sorted, TablesOrdered, TablesNamed, Counted, RowsHoused, Conserved, Shifted;
    var db' := RemoveRow(db, env, p, i).value;
    var row, t := db.rows[p], db.tables[i];
    var db1 := UpdateUsage(db, env, row.payer, -RowCost(row)).value;
    var db2 := db1.(tables := db.tables[i := t.(count := t.count - 1)], rows := RemoveAt(db.rows, p));
    UsageMoves(db, env, row.payer, -RowCost(row));
    SortedRemove(db.rows, p);
    CountedRemove(db.tables, db.rows, db.nextId, i, p);
    ConservedRemove(db.tables, db.rows, db.ram, db1.ram, i, t.count - 1, p);
    HousedRemove(db.tables, db.rows, p);
    RecountKeeps(db.tables, db2.rows, db.nextId, i, t.count - 1);
    if t.count - 1 == 0 {
      UsageMoves(db2, env, t.payer, -TABLE_SIZE);
      DropKeeps(db2, i, UpdateUsage(db2, env, t.payer, -TABLE_SIZE).value.ram);
    }
  }

  /** Deleting an empty table and refunding its payer, whoever removed the last row. */
  lemma {:induction false} DropKeeps(db: Db, i: nat, ram: map<Account, int>)
    requires Consistent(db) && i < |db.tables| && db.tables[i].count == 0
    requires forall j :: 0 <= j < |db.tables| && j != i ==> db.tables[j].count > 0
    requires Shifted(db.ram, ram, db.tables[i].payer, -TABLE_SIZE)
    ensures Valid(db.(tables := RemoveAt(db.tables, i), ram := ram))
  {
    hide Sum, Conserved, RowsHoused, Shifted, TablesOrdered, TablesNamed;
    var tables' := RemoveAt(db.tables, i);
    assert forall j :: 0 <= j < |tables'| ==> tables'[j] == db.tables[if j < i then j else j + 1];
    ConservedDropTable(db.tables, db.rows, db.ram, ram, i);
    HousedDrop(db.tables, db.rows, i);
    TablesAfterRemove(db.tables, db.nextId, i);
  }
}
