/** The contract tables behind `db_*_i64`: table objects, rows in one index ordered by (table id,
    primary key), RAM charges, and the iterator numbers handed to contracts. */
module TableStore {
  import opened Basics
  import opened Sums

  /** An account name as its 64-bit value; zero is the empty name. */
  type Account = nat

  const TABLE_SIZE: int := 112
  const ROW_OVERHEAD: int := 112

  datatype Row = Row(tid: nat, pk: nat, payer: Account, value: bytes)
  datatype Table = Table(id: nat, code: nat, scope: nat, name: nat, payer: Account, count: int)

  /** `tables` in creation order, `rows` in index order. */
  datatype Db = Db(tables: seq<Table>, rows: seq<Row>, nextId: nat, ram: map<Account, int>)

  /** What the running action allows: who executes, for which action, with whose authority. */
  datatype Env = Env(receiver: Account, actAccount: Account, privileged: bool, billingInNotify: bool,
                     authorized: set<Account>)

  /* ---------- RAM ---------- */

  function RamOf(ram: map<Account, int>, a: Account): int {
    if a in ram then ram[a] else 0
  }

  function AddRam(db: Db, a: Account, delta: int): Db {
    db.(ram := db.ram[a := RamOf(db.ram, a) + delta])
  }

  /** `update_db_usage`: charging someone else needs their authority, and not from a notification
      unless that is allowed; refunds always pass. */
  function UpdateUsage(db: Db, env: Env, payer: Account, delta: int): Option<Db> {
    if delta > 0 && !env.privileged && payer != env.receiver &&
       !((env.billingInNotify || env.receiver == env.actAccount) && payer in env.authorized)
    then None
    else Some(AddRam(db, payer, delta))
  }

  function RowCost(r: Row): int {
    |r.value| + ROW_OVERHEAD
  }

  function RowCharge(a: Account): Row -> int {
    (r: Row) => if r.payer == a then RowCost(r) else 0
  }

  function TableCharge(a: Account): Table -> int {
    (t: Table) => if t.payer == a then TABLE_SIZE else 0
  }

  function InTable(tid: nat): Row -> int {
    (r: Row) => if r.tid == tid then 1 else 0
  }

  /* ---------- the ordered index ---------- */

  predicate Less(tid: nat, pk: nat, tid': nat, pk': nat) {
    tid < tid' || (tid == tid' && pk < pk')
  }

  predicate RowLess(a: Row, b: Row) {
    Less(a.tid, a.pk, b.tid, b.pk)
  }

  ghost predicate Sorted(rows: seq<Row>) {
    forall i, j :: 0 <= i < j < |rows| ==> RowLess(rows[i], rows[j])
  }

  /** The first position whose key is not below (tid, pk). */
  function LowerBound(rows: seq<Row>, tid: nat, pk: nat): (i: nat)
    ensures i <= |rows|
    ensures forall j :: 0 <= j < i ==> Less(rows[j].tid, rows[j].pk, tid, pk)
    ensures i < |rows| ==> !Less(rows[i].tid, rows[i].pk, tid, pk)
  {
    if rows == [] || !Less(rows[0].tid, rows[0].pk, tid, pk) then 0
    else 1 + LowerBound(rows[1..], tid, pk)
  }

  /** The first position whose key is above (tid, pk). */
  function UpperBound(rows: seq<Row>, tid: nat, pk: nat): (i: nat)
    ensures i <= |rows|
    ensures forall j :: 0 <= j < i ==> !Less(tid, pk, rows[j].tid, rows[j].pk)
    ensures i < |rows| ==> Less(tid, pk, rows[i].tid, rows[i].pk)
  {
    if rows == [] || Less(tid, pk, rows[0].tid, rows[0].pk) then 0
    else 1 + UpperBound(rows[1..], tid, pk)
  }

  /** The first position of a later table: `upper_bound` with only the table id given. */
  function TableUpperBound(rows: seq<Row>, tid: nat): (i: nat)
    ensures i <= |rows|
    ensures forall j :: 0 <= j < i ==> rows[j].tid <= tid
    ensures i < |rows| ==> tid < rows[i].tid
  {
    if rows == [] || tid < rows[0].tid then 0 else 1 + TableUpperBound(rows[1..], tid)
  }

  /** The position of a key, or `|rows|`. */
  function Position(rows: seq<Row>, tid: nat, pk: nat): (i: nat)
    ensures i <= |rows|
    ensures i < |rows| ==> rows[i].tid == tid && rows[i].pk == pk
  {
    var i := LowerBound(rows, tid, pk);
    if i < |rows| && rows[i].tid == tid && rows[i].pk == pk then i else |rows|
  }

  /* ---------- tables ---------- */

  function FindTable(tables: seq<Table>, code: nat, scope: nat, name: nat): (i: nat)
    ensures i <= |tables|
    ensures i < |tables| ==> tables[i].code == code && tables[i].scope == scope && tables[i].name == name
    ensures forall j :: 0 <= j < i ==> !(tables[j].code == code && tables[j].scope == scope && tables[j].name == name)
  {
    if tables == [] || (tables[0].code == code && tables[0].scope == scope && tables[0].name == name) then 0
    else 1 + FindTable(tables[1..], code, scope, name)
  }

  function TableById(tables: seq<Table>, tid: nat): (i: nat)
    ensures i <= |tables|
    ensures i < |tables| ==> tables[i].id == tid
    ensures forall j :: 0 <= j < i ==> tables[j].id != tid
  {
    if tables == [] || tables[0].id == tid then 0 else 1 + TableById(tables[1..], tid)
  }

  /** `find_or_create_table`: the database and the table's place in it. */
  function FindOrCreateTable(db: Db, env: Env, code: nat, scope: nat, name: nat, payer: Account): (r: Option<(Db, nat)>)
    ensures r.Some? ==> r.value.1 < |r.value.0.tables|
  {
    var i := FindTable(db.tables, code, scope, name);
    if i < |db.tables| then Some((db, i))
    else
      var db1 :- UpdateUsage(db, env, payer, TABLE_SIZE);
      Some((db1.(tables := db1.tables + [Table(db1.nextId, code, scope, name, payer, 0)], nextId := db1.nextId + 1),
            |db1.tables|))
  }

  /* ---------- rows ---------- */

  /** `db_store_i64` on the tables of the receiver; the second result is the table's id. */
  function StoreRow(db: Db, env: Env, scope: nat, name: nat, payer: Account, pk: nat, value: bytes): Option<(Db, nat)> {
    var (db1, i) :- FindOrCreateTable(db, env, env.receiver, scope, name, payer);
    var t := db1.tables[i];
    if payer == 0 || Position(db1.rows, t.id, pk) < |db1.rows| then None
    else
      var row := Row(t.id, pk, payer, value);
      var db2 := db1.(rows := InsertAt(db1.rows, LowerBound(db1.rows, t.id, pk), row),
                      tables := db1.tables[i := t.(count := t.count + 1)]);
      var db3 :- UpdateUsage(db2, env, payer, RowCost(row));
      Some((db3, t.id))
  }

  /** `db_update_i64` on the row at index position `p`, whose table is at place `i`. */
  function UpdateRow(db: Db, env: Env, p: nat, i: nat, payer: Account, value: bytes): Option<Db>
    requires p < |db.rows| && i < |db.tables|
  {
    if db.tables[i].code != env.receiver then None
    else
      var prev := db.rows[p];
      var payer' := if payer == 0 then prev.payer else payer;
      var row := prev.(payer := payer', value := value);
      var db1 :-
        if prev.payer != payer' then
          var refunded :- UpdateUsage(db, env, prev.payer, -RowCost(prev));
          UpdateUsage(refunded, env, payer', RowCost(row))
        else if RowCost(prev) != RowCost(row) then
          UpdateUsage(db, env, prev.payer, RowCost(row) - RowCost(prev))
        else Some(db);
      Some(db1.(rows := db1.rows[p := row]))
  }

  /** `db_remove_i64`: the last row of a table takes the table with it. */
  function RemoveRow(db: Db, env: Env, p: nat, i: nat): Option<Db>
    requires p < |db.rows| && i < |db.tables|
  {
    if db.tables[i].code != env.receiver then None
    else
      var row, t := db.rows[p], db.tables[i];
      var db1 :- UpdateUsage(db, env, row.payer, -RowCost(row));
      var db2 := db1.(tables := db1.tables[i := t.(count := t.count - 1)], rows := RemoveAt(db1.rows, p));
      if t.count - 1 == 0 then
        var db3 :- UpdateUsage(db2, env, t.payer, -TABLE_SIZE);
        Some(db3.(tables := RemoveAt(db3.tables, i)))
      else Some(db2)
  }
}
