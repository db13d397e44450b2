/** Iterator numbers over the ordered row index, as contracts see them: rows are numbered from zero in
    the order they are met, `-1` is no table, and numbers below `-1` are the ends of tables. */
module TableIterators {
  import opened Basics
  import opened TableStore
  import opened TableTheory

  datatype Ref = Ref(tid: nat, pk: nat)

  /** `iterator_cache`: the tables given an end iterator, and the row behind each iterator. */
  datatype Cache = Cache(ends: seq<nat>, objs: seq<Option<Ref>>)

  datatype State = State(db: Db, cache: Cache)

  function IndexIn<T(==)>(s: seq<T>, x: T): (i: nat)
    ensures i <= |s|
    ensures i < |s| ==> s[i] == x
    ensures forall j :: 0 <= j < i ==> s[j] != x
    ensures i < |s| <==> x in s
  {
    if s == [] || s[0] == x then 0 else 1 + IndexIn(s[1..], x)
  }

  /** The end iterator of the table cached at place `i`. */
  function EndNumber(i: nat): int {
    -(i + 2)
  }

  function CacheTable(c: Cache, tid: nat): (Cache, int) {
    var i := IndexIn(c.ends, tid);
    (if i < |c.ends| then c else c.(ends := c.ends + [tid]), EndNumber(i))
  }

  function AddRef(c: Cache, ref: Ref): (Cache, int) {
    var i := IndexIn(c.objs, Some(ref));
    (if i < |c.objs| then c else c.(objs := c.objs + [Some(ref)]), i)
  }

  function Get(c: Cache, it: int): Option<Ref> {
    if 0 <= it < |c.objs| then c.objs[it] else None
  }

  /* ---------- the calls ---------- */

  function Store(st: State, env: Env, scope: nat, name: nat, payer: Account, pk: nat, value: bytes): Option<(State, int)> {
    var (db, tid) :- StoreRow(st.db, env, scope, name, payer, pk, value);
    var (c, it) := AddRef(CacheTable(st.cache, tid).0, Ref(tid, pk));
    Some((State(db, c), it))
  }

  /** The row behind an iterator and its table, by place; `None` is a failed lookup. */
  function Locate(st: State, it: int): (r: Option<(nat, nat)>)
    ensures r.Some? ==> r.value.0 < |st.db.rows| && r.value.1 < |st.db.tables|
  {
    var ref :- Get(st.cache, it);
    if ref.tid !in st.cache.ends then None
    else
      var p, i := Position(st.db.rows, ref.tid, ref.pk), TableById(st.db.tables, ref.tid);
      if p < |st.db.rows| && i < |st.db.tables| then Some((p, i)) else None
  }

  function Update(st: State, env: Env, it: int, payer: Account, value: bytes): Option<State> {
    var (p, i) :- Locate(st, it);
    var db :- UpdateRow(st.db, env, p, i, payer, value);
    Some(st.(db := db))
  }

  function Remove(st: State, env: Env, it: int): Option<State> {
    var (p, i) :- Locate(st, it);
    var db :- RemoveRow(st.db, env, p, i);
    Some(State(db, st.cache.(objs := st.cache.objs[it := None])))
  }

  /** The iterator for index position `p` when it lies in table `tid`, else the table's end. */
  function At(st: State, tid: nat, p: nat): (State, int) {
    var (c, end) := CacheTable(st.cache, tid);
    if p < |st.db.rows| && st.db.rows[p].tid == tid then
      var (c', it) := AddRef(c, Ref(tid, st.db.rows[p].pk));
      (st.(cache := c'), it)
    else (st.(cache := c), end)
  }

  function Find(st: State, code: nat, scope: nat, name: nat, pk: nat): (State, int) {
    var i := FindTable(st.db.tables, code, scope, name);
    if i == |st.db.tables| then (st, -1)
    else At(st, st.db.tables[i].id, Position(st.db.rows, st.db.tables[i].id, pk))
  }

  function Lower(st: State, code: nat, scope: nat, name: nat, pk: nat): (State, int) {
    var i := FindTable(st.db.tables, code, scope, name);
    if i == |st.db.tables| then (st, -1)
    else At(st, st.db.tables[i].id, LowerBound(st.db.rows, st.db.tables[i].id, pk))
  }

  function Upper(st: State, code: nat, scope: nat, name: nat, pk: nat): (State, int) {
    var i := FindTable(st.db.tables, code, scope, name);
    if i == |st.db.tables| then (st, -1)
    else At(st, st.db.tables[i].id, UpperBound(st.db.rows, st.db.tables[i].id, pk))
  }

  function End(st: State, code: nat, scope: nat, name: nat): (State, int) {
    var i := FindTable(st.db.tables, code, scope, name);
    if i == |st.db.tables| then (st, -1)
    else
      var (c, end) := CacheTable(st.cache, st.db.tables[i].id);
      (st.(cache := c), end)
  }

  /** `db_next_i64`; stepping past an end iterator gives `-1`. */
  function Next(st: State, it: int): Option<(State, int)> {
    if it < -1 then Some((st, -1))
    else
      var ref :- Get(st.cache, it);
      var p := Position(st.db.rows, ref.tid, ref.pk);
      if p == |st.db.rows| || ref.tid !in st.cache.ends then None else Some(At(st, ref.tid, p + 1))
  }

  /** The row just before index position `p` if it lies in table `tid`, else `-1`. */
  function Before(st: State, tid: nat, p: nat): (State, int)
    requires p <= |st.db.rows|
  {
    if p == 0 || st.db.rows[p - 1].tid != tid then (st, -1)
    else
      var (c, it) := AddRef(st.cache, Ref(tid, st.db.rows[p - 1].pk));
      (st.(cache := c), it)
  }

  function Previous(st: State, it: int): Option<(State, int)> {
    if it < -1 then
      if -it - 2 >= |st.cache.ends| then None
      else
        var tid := st.cache.ends[-it - 2];
        Some(Before(st, tid, TableUpperBound(st.db.rows, tid)))
    else
      var ref :- Get(st.cache, it);
      var p := Position(st.db.rows, ref.tid, ref.pk);
      if p == |st.db.rows| then None else Some(Before(st, ref.tid, p))
  }

  /* ---------- what every call keeps ---------- */

  ghost predicate Live(st: State, ref: Ref) {
    Position(st.db.rows, ref.tid, ref.pk) < |st.db.rows| && ref.tid in st.cache.ends
  }

  /** Every iterator that is not deleted stands for one row that exists, in a table with an end
      iterator, and no row has two iterators. */
  ghost predicate CacheValid(st: State) {
    && (forall i, j :: 0 <= i < j < |st.cache.ends| ==> st.cache.ends[i] != st.cache.ends[j])
    && (forall i, j :: 0 <= i < j < |st.cache.objs| && st.cache.objs[i].Some? ==> st.cache.objs[i] != st.cache.objs[j])
    && (forall i :: 0 <= i < |st.cache.objs| && st.cache.objs[i].Some? ==> Live(st, st.cache.objs[i].value))
  }

  ghost predicate StateValid(st: State) {
    Valid(st.db) && CacheValid(st)
  }

  lemma {:induction false} PositionOf(rows: seq<Row>, p: nat)
    requires Sorted(rows) && p < |rows|
    ensures Position(rows, rows[p].tid, rows[p].pk) == p
    ensures LowerBound(rows, rows[p].tid, rows[p].pk) == p
  {
    hide Position;
    PositionIsLower(rows, rows[p].tid, rows[p].pk);
  }

  lemma {:induction false} PositionIsLower(rows: seq<Row>, tid: nat, pk: nat)
    ensures var k := LowerBound(rows, tid, pk);
            Position(rows, tid, pk) == if k < |rows| && rows[k].tid == tid && rows[k].pk == pk then k else |rows|
  {
  }

  /** A row that is in the index is found. */
  lemma {:induction false} PositionComplete(rows: seq<Row>, tid: nat, pk: nat, p: nat)
    requires Sorted(rows) && p < |rows| && rows[p].tid == tid && rows[p].pk == pk
    ensures Position(rows, tid, pk) == p
  {
    PositionOf(rows, p);
  }

  lemma {:induction false} CacheTableKeeps(st: State, tid: nat)
    requires CacheValid(st)
    ensures var (c, end) := CacheTable(st.cache, tid);
            && CacheValid(st.(cache := c)) && c.objs == st.cache.objs && tid in c.ends
            && st.cache.ends <= c.ends
            && end < -1 && -end - 2 < |c.ends| && c.ends[-end - 2] == tid
  {
    hide Position;
    var c := CacheTable(st.cache, tid).0;
    forall i | 0 <= i < |c.objs| && c.objs[i].Some? ensures Live(st.(cache := c), c.objs[i].value) {
      assert Live(st, c.objs[i].value);
    }
  }

  lemma {:induction false} AddRefKeeps(st: State, ref: Ref)
    requires CacheValid(st) && Live(st, ref)
    ensures var (c, it) := AddRef(st.cache, ref);
            && CacheValid(st.(cache := c)) && c.ends == st.cache.ends
            && 0 <= it < |c.objs| && c.objs[it] == Some(ref)
            && st.cache.objs <= c.objs
  {
    hide Position;
    var c := AddRef(st.cache, ref).0;
    forall i | 0 <= i < |c.objs| && c.objs[i].Some? ensures Live(st.(cache := c), c.objs[i].value) {
      if i < |st.cache.objs| {
        assert Live(st, st.cache.objs[i].value);
      }
    }
  }

  /** The iterator number of a row that has one is found again. */
  lemma {:induction false} AddRefAgain(st: State, ref: Ref, it: nat)
    requires CacheValid(st) && it < |st.cache.objs| && st.cache.objs[it] == Some(ref)
    ensures AddRef(st.cache, ref) == (st.cache, it)
  {
    assert st.cache.objs[IndexIn(st.cache.objs, Some(ref))] == st.cache.objs[it];
  }

  lemma {:induction false} AtKeeps(st: State, tid: nat, p: nat)
    requires StateValid(st)
    ensures StateValid(At(st, tid, p).0) && At(st, tid, p).0.db == st.db
    ensures var (st', it) := At(st, tid, p);
            if p < |st.db.rows| && st.db.rows[p].tid == tid
            then Get(st'.cache, it) == Some(Ref(tid, st.db.rows[p].pk))
            else it == CacheTable(st.cache, tid).1 && it < -1 && -it - 2 < |st'.cache.ends| && st'.cache.ends[-it - 2] == tid
    ensures tid in At(st, tid, p).0.cache.ends
    ensures st.cache.objs <= At(st, tid, p).0.cache.objs && st.cache.ends <= At(st, tid, p).0.cache.ends
  {
    hide Position, Valid, CacheValid, CacheTable, AddRef;
    CacheTableKeeps(st, tid);
    if p < |st.db.rows| && st.db.rows[p].tid == tid {
      ValidSorted(st.db);
      PositionOf(st.db.rows, p);
      var st1 := st.(cache := CacheTable(st.cache, tid).0);
      AddRefKeeps(st1, Ref(tid, st.db.rows[p].pk));
    }
  }

  lemma {:induction false} ValidSorted(db: Db)
    requires Valid(db)
    ensures Sorted(db.rows)
  {
  }

  lemma {:induction false} BeforeKeeps(st: State, tid: nat, p: nat)
    requires StateValid(st) && p <= |st.db.rows| && tid in st.cache.ends
    ensures StateValid(Before(st, tid, p).0) && Before(st, tid, p).0.db == st.db
    ensures var (st', it) := Before(st, tid, p);
            if p > 0 && st.db.rows[p - 1].tid == tid
            then Get(st'.cache, it) == Some(Ref(tid, st.db.rows[p - 1].pk))
            else it == -1
    ensures st.cache.objs <= Before(st, tid, p).0.cache.objs
    ensures Before(st, tid, p).0.cache.ends == st.cache.ends
  {
    hide Position, Valid, CacheValid, AddRef;
    if p > 0 && st.db.rows[p - 1].tid == tid {
      ValidSorted(st.db);
      PositionOf(st.db.rows, p - 1);
      AddRefKeeps(st, Ref(tid, st.db.rows[p - 1].pk));
    }
  }

  /* ---------- iterators against a sorted map per table ---------- */

  /** The primary keys of one table, in index order. */
  function TableKeys(rows: seq<Row>, tid: nat): seq<nat> {
    if rows == [] then []
    else (if rows[0].tid == tid then [rows[0].pk] else []) + TableKeys(rows[1..], tid)
  }

  lemma {:induction false} KeysAppend(a: seq<Row>, b: seq<Row>, tid: nat)
    ensures TableKeys(a + b, tid) == TableKeys(a, tid) + TableKeys(b, tid)
  {
    if a == [] {
      assert a + b == b;
    } else {
      assert (a + b)[1..] == a[1..] + b;
      KeysAppend(a[1..], b, tid);
    }
  }

  lemma {:induction false} KeysOfOthers(rows: seq<Row>, tid: nat)
    requires forall i :: 0 <= i < |rows| ==> rows[i].tid != tid
    ensures TableKeys(rows, tid) == []
  {
    if rows != [] {
      KeysOfOthers(rows[1..], tid);
    }
  }

  lemma {:induction false} KeysOfOwn(rows: seq<Row>, tid: nat)
    requires forall i :: 0 <= i < |rows| ==> rows[i].tid == tid
    ensures |TableKeys(rows, tid)| == |rows|
    ensures forall i :: 0 <= i < |rows| ==> TableKeys(rows, tid)[i] == rows[i].pk
  {
    if rows != [] {
      KeysOfOwn(rows[1..], tid);
    }
  }

  /** The rows of a table stand together between its two bounds. */
  lemma {:induction false} Bounds(rows: seq<Row>, tid: nat)
    requires Sorted(rows)
    ensures var lo, hi := LowerBound(rows, tid, 0), TableUpperBound(rows, tid);
            && lo <= hi
            && (forall i :: lo <= i < hi ==> rows[i].tid == tid)
            && (forall i :: 0 <= i < |rows| && rows[i].tid == tid ==> lo <= i < hi)
  {
    hide LowerBound, TableUpperBound;
    var lo, hi := LowerBound(rows, tid, 0), TableUpperBound(rows, tid);
    forall i | lo <= i < |rows| ensures rows[i].tid >= tid {
      assert lo < i ==> RowLess(rows[lo], rows[i]);
    }
    forall i | hi <= i < |rows| ensures rows[i].tid > tid {
      assert hi < i ==> RowLess(rows[hi], rows[i]);
    }
  }

  lemma {:induction false} Segment(rows: seq<Row>, tid: nat)
    requires Sorted(rows)
    ensures var lo, hi := LowerBound(rows, tid, 0), TableUpperBound(rows, tid);
            && lo <= hi
            && (forall i :: lo <= i < hi ==> rows[i].tid == tid)
            && (forall i :: 0 <= i < |rows| && rows[i].tid == tid ==> lo <= i < hi)
            && |TableKeys(rows, tid)| == hi - lo
            && forall k :: 0 <= k < hi - lo ==> TableKeys(rows, tid)[k] == rows[lo + k].pk
  {
    hide TableKeys, LowerBound, TableUpperBound, Sorted;
    Bounds(rows, tid);
    KeysBetween(rows, tid, LowerBound(rows, tid, 0), TableUpperBound(rows, tid));
  }

  lemma {:induction false} KeysBetween(rows: seq<Row>, tid: nat, lo: nat, hi: nat)
    requires lo <= hi <= |rows|
    requires forall i :: 0 <= i < |rows| ==> (rows[i].tid == tid <==> lo <= i < hi)
    ensures |TableKeys(rows, tid)| == hi - lo
    ensures forall k :: 0 <= k < hi - lo ==> TableKeys(rows, tid)[k] == rows[lo + k].pk
  {
    hide TableKeys;
    var mine := rows[lo..hi];
    KeysOfOthers(rows[..lo], tid);
    KeysOfOwn(mine, tid);
    KeysOfOthers(rows[hi..], tid);
    KeysAppend(mine, rows[hi..], tid);
    KeysAppend(rows[..lo], mine + rows[hi..], tid);
    assert rows == rows[..lo] + (mine + rows[hi..]);
    assert TableKeys(rows, tid) == TableKeys(mine, tid);
  }

  /** Keys come out in increasing order. */
  lemma {:induction false} KeysIncrease(rows: seq<Row>, tid: nat)
    requires Sorted(rows)
    ensures forall i, j :: 0 <= i < j < |TableKeys(rows, tid)| ==> TableKeys(rows, tid)[i] < TableKeys(rows, tid)[j]
  {
    hide TableKeys, LowerBound, TableUpperBound;
    Segment(rows, tid);
    var lo := LowerBound(rows, tid, 0);
    forall i, j | 0 <= i < j < |TableKeys(rows, tid)| ensures TableKeys(rows, tid)[i] < TableKeys(rows, tid)[j] {
      assert RowLess(rows[lo + i], rows[lo + j]);
    }
  }

  /** The number of the end iterator a lookup in table `tid` would return. */
  function EndOf(st: State, tid: nat): int {
    CacheTable(st.cache, tid).1
  }

  /** `db_find_i64`: the row with that key, or the end of the table. */
  lemma {:induction false} FindAgrees(st: State, code: nat, scope: nat, name: nat, pk: nat)
    requires StateValid(st)
    ensures StateValid(Find(st, code, scope, name, pk).0) && Find(st, code, scope, name, pk).0.db == st.db
    ensures var i := FindTable(st.db.tables, code, scope, name);
            var (st', it) := Find(st, code, scope, name, pk);
            if i == |st.db.tables| then it == -1
            else
              var tid := st.db.tables[i].id;
              if pk in TableKeys(st.db.rows, tid) then Get(st'.cache, it) == Some(Ref(tid, pk)) else it == EndOf(st, tid)
  {
    hide TableKeys, At, Valid, CacheValid, LowerBound, Get, CacheTable;
    var i := FindTable(st.db.tables, code, scope, name);
    if i < |st.db.tables| {
      var tid := st.db.tables[i].id;
      ValidSorted(st.db);
      AtKeeps(st, tid, Position(st.db.rows, tid, pk));
      KeyHasPosition(st.db.rows, tid, pk);
    }
  }

  lemma {:induction false} KeyHasPosition(rows: seq<Row>, tid: nat, pk: nat)
    requires Sorted(rows)
    ensures pk in TableKeys(rows, tid) <==> Position(rows, tid, pk) < |rows|
  {
    hide TableKeys, LowerBound, TableUpperBound, Position;
    Segment(rows, tid);
    var lo, hi := LowerBound(rows, tid, 0), TableUpperBound(rows, tid);
    if pk in TableKeys(rows, tid) {
      var k :| 0 <= k < hi - lo && TableKeys(rows, tid)[k] == pk;
      PositionComplete(rows, tid, pk, lo + k);
    }
    var p := Position(rows, tid, pk);
    if p < |rows| {
      assert TableKeys(rows, tid)[p - lo] == pk;
    }
  }

  /** `keys[k]` is the first key not below `pk`; `k == |keys|` when there is none. */
  ghost predicate FirstFrom(keys: seq<nat>, pk: nat, k: nat) {
    && k <= |keys|
    && (forall j :: 0 <= j < k ==> keys[j] < pk)
    && (k < |keys| ==> keys[k] >= pk)
  }

  /** `db_lowerbound_i64`: the first key of the table that is not below `pk`, or the end. */
  lemma {:induction false} LowerAgrees(st: State, code: nat, scope: nat, name: nat, pk: nat, k: nat)
    requires StateValid(st)
    requires var i := FindTable(st.db.tables, code, scope, name);
             i < |st.db.tables| && FirstFrom(TableKeys(st.db.rows, st.db.tables[i].id), pk, k)
    ensures StateValid(Lower(st, code, scope, name, pk).0) && Lower(st, code, scope, name, pk).0.db == st.db
    ensures var tid := st.db.tables[FindTable(st.db.tables, code, scope, name)].id;
            var keys := TableKeys(st.db.rows, tid);
            var (st', it) := Lower(st, code, scope, name, pk);
            if k < |keys| then Get(st'.cache, it) == Some(Ref(tid, keys[k])) else it == EndOf(st, tid)
  {
    hide TableKeys, At, Valid, CacheValid, LowerBound, Get, CacheTable;
    var tid := st.db.tables[FindTable(st.db.tables, code, scope, name)].id;
    ValidSorted(st.db);
    BoundAt(st.db.rows, tid, pk, LowerBound(st.db.rows, tid, pk), k);
    AtKeeps(st, tid, LowerBound(st.db.rows, tid, pk));
  }

  /** `db_upperbound_i64`: the first key of the table above `pk`, or the end. */
  lemma {:induction false} UpperAgrees(st: State, code: nat, scope: nat, name: nat, pk: nat, k: nat)
    requires StateValid(st)
    requires var i := FindTable(st.db.tables, code, scope, name);
             i < |st.db.tables| && FirstFrom(TableKeys(st.db.rows, st.db.tables[i].id), pk + 1, k)
    ensures StateValid(Upper(st, code, scope, name, pk).0) && Upper(st, code, scope, name, pk).0.db == st.db
    ensures var tid := st.db.tables[FindTable(st.db.tables, code, scope, name)].id;
            var keys := TableKeys(st.db.rows, tid);
            var (st', it) := Upper(st, code, scope, name, pk);
            if k < |keys| then Get(st'.cache, it) == Some(Ref(tid, keys[k])) else it == EndOf(st, tid)
  {
    hide TableKeys, At, Valid, CacheValid, UpperBound, Get, CacheTable;
    var tid := st.db.tables[FindTable(st.db.tables, code, scope, name)].id;
    ValidSorted(st.db);
    var p := UpperBound(st.db.rows, tid, pk);
    BoundAt(st.db.rows, tid, pk + 1, p, k);
    AtKeeps(st, tid, p);
  }

  /** A position that splits the index at (tid, pk) is the place of the first key from `pk` on. */
  lemma {:induction false} BoundAt(rows: seq<Row>, tid: nat, pk: nat, p: nat, k: nat)
    requires Sorted(rows) && p <= |rows|
    requires forall j :: 0 <= j < p ==> Less(rows[j].tid, rows[j].pk, tid, pk)
    requires p < |rows| ==> !Less(rows[p].tid, rows[p].pk, tid, pk)
    requires FirstFrom(TableKeys(rows, tid), pk, k)
    ensures k < |TableKeys(rows, tid)| ==> p < |rows| && rows[p].tid == tid && rows[p].pk == TableKeys(rows, tid)[k]
    ensures k == |TableKeys(rows, tid)| ==> p == |rows| || rows[p].tid != tid
  {
    hide TableKeys, LowerBound, TableUpperBound;
    Segment(rows, tid);
    var lo := LowerBound(rows, tid, 0);
    var keys := TableKeys(rows, tid);
    forall j | 0 <= j < lo + k ensures Less(rows[j].tid, rows[j].pk, tid, pk) {
      if lo <= j {
        assert keys[j - lo] == rows[j].pk;
      }
    }
    assert p < |rows| ==> lo + k <= p;
    assert k < |keys| ==> rows[lo + k].pk == keys[k];
  }

  /* ---------- stepping ---------- */

  /** `previous` undoes `next`, also from the end iterator. */
  lemma {:induction false} PreviousUndoesNext(st: State, it: int)
    requires StateValid(st) && Get(st.cache, it).Some?
    ensures Next(st, it).Some?
    ensures var (st1, it1) := Next(st, it).value;
            && StateValid(st1) && st1.db == st.db
            && Previous(st1, it1).Some? && Previous(st1, it1).value.1 == it && Previous(st1, it1).value.0.db == st.db
  {
    hide Position, Valid, LowerBound, CacheTable, AddRef, TableUpperBound;
    var ref := Get(st.cache, it).value;
    assert Live(st, ref);
    var p := Position(st.db.rows, ref.tid, ref.pk);
    ValidSorted(st.db);
    AtKeeps(st, ref.tid, p + 1);
    var (st1, it1) := Next(st, it).value;
    assert st1.cache.objs[it] == Some(ref);
    AddRefAgain(st1, ref, it);
    if it1 < -1 {
      LastOfTable(st.db.rows, ref.tid, p);
    } else {
      PositionOf(st.db.rows, p + 1);
    }
  }

  lemma {:induction false} LastOfTable(rows: seq<Row>, tid: nat, p: nat)
    requires Sorted(rows) && p < |rows| && rows[p].tid == tid
    requires p + 1 == |rows| || rows[p + 1].tid != tid
    ensures TableUpperBound(rows, tid) == p + 1
  {
    hide TableUpperBound;
    assert p + 1 < |rows| ==> RowLess(rows[p], rows[p + 1]);
    var u := TableUpperBound(rows, tid);
    assert u < p ==> RowLess(rows[u], rows[p]);
  }

  /** `next` undoes `previous`, also when `previous` starts at an end iterator. */
  lemma {:induction false} NextUndoesPrevious(st: State, it: int)
    requires StateValid(st) && Previous(st, it).Some? && Previous(st, it).value.1 != -1
    ensures var (st1, it1) := Previous(st, it).value;
            && StateValid(st1) && st1.db == st.db
            && Next(st1, it1).Some? && Next(st1, it1).value.1 == it && Next(st1, it1).value.0.db == st.db
  {
    hide Position, Valid, LowerBound, TableUpperBound, IndexIn;
    ValidSorted(st.db);
    var rows := st.db.rows;
    if it < -1 {
      var tid := st.cache.ends[-it - 2];
      var u := TableUpperBound(rows, tid);
      BeforeKeeps(st, tid, u);
      PositionOf(rows, u - 1);
      var st1 := Previous(st, it).value.0;
      EndAgain(st1.cache, tid, -it - 2, st1);
    } else {
      var ref := Get(st.cache, it).value;
      assert Live(st, ref);
      var p := Position(rows, ref.tid, ref.pk);
      BeforeKeeps(st, ref.tid, p);
      PositionOf(rows, p - 1);
      var st1 := Previous(st, it).value.0;
      assert st1.cache.objs[it] == Some(ref);
      AddRefAgain(st1, ref, it);
      CachedEnd(st1.cache, ref.tid);
    }
  }

  lemma {:induction false} EndAgain(c: Cache, tid: nat, i: nat, st: State)
    requires CacheValid(st) && st.cache == c && i < |c.ends| && c.ends[i] == tid
    ensures CacheTable(c, tid) == (c, EndNumber(i))
  {
    assert c.ends[IndexIn(c.ends, tid)] == c.ends[i];
  }

  lemma {:induction false} CachedEnd(c: Cache, tid: nat)
    requires tid in c.ends
    ensures CacheTable(c, tid).0 == c
  {
  }

  /** `next` repeated `k` times. */
  function Iterate(st: State, it: int, k: nat): Option<(State, int)> {
    if k == 0 then Some((st, it))
    else
      var (st1, it1) :- Iterate(st, it, k - 1);
      Next(st1, it1)
  }

  /** Walking `next` from `lowerbound(0)` visits exactly the table's rows, in increasing key order,
      and then its end iterator. */
  lemma {:induction false} WalkVisitsTable(st: State, code: nat, scope: nat, name: nat, k: nat)
    requires StateValid(st) && FindTable(st.db.tables, code, scope, name) < |st.db.tables|
    requires k <= |TableKeys(st.db.rows, st.db.tables[FindTable(st.db.tables, code, scope, name)].id)|
    ensures var tid := st.db.tables[FindTable(st.db.tables, code, scope, name)].id;
            var keys := TableKeys(st.db.rows, tid);
            var (st0, it0) := Lower(st, code, scope, name, 0);
            && Iterate(st0, it0, k).Some?
            && var (st', it) := Iterate(st0, it0, k).value;
            && StateValid(st') && st'.db == st.db && tid in st'.cache.ends
            && (if k < |keys| then Get(st'.cache, it) == Some(Ref(tid, keys[k])) else it == EndOf(st', tid) && it < -1)
    decreases k
  {
    hide TableKeys, Valid, CacheValid, LowerBound, CacheTable, Position, TableUpperBound, At, Next, FindTable, Get;
    var i := FindTable(st.db.tables, code, scope, name);
    var tid := st.db.tables[i].id;
    var keys := TableKeys(st.db.rows, tid);
    var (st0, it0) := Lower(st, code, scope, name, 0);
    ValidSorted(st.db);
    Segment(st.db.rows, tid);
    var lo := LowerBound(st.db.rows, tid, 0);
    if k == 0 {
      AtKeeps(st, tid, lo);
      if k == |keys| {
        EndStable(st, tid, st0);
      }
    } else {
      WalkVisitsTable(st, code, scope, name, k - 1);
      var (st1, it1) := Iterate(st0, it0, k - 1).value;
      AdvanceOne(st1, it1, tid, lo + k - 1);
      AtKeeps(st1, tid, lo + k);
      if k == |keys| {
        EndStable(st1, tid, At(st1, tid, lo + k).0);
      }
    }
  }

  lemma {:induction false} AdvanceOne(st: State, it: int, tid: nat, p: nat)
    requires Sorted(st.db.rows) && p < |st.db.rows| && st.db.rows[p].tid == tid && tid in st.cache.ends
    requires Get(st.cache, it) == Some(Ref(tid, st.db.rows[p].pk))
    ensures Next(st, it) == Some(At(st, tid, p + 1))
  {
    hide At, Position;
    PositionOf(st.db.rows, p);
  }

  /** A table's end iterator does not change as the cache grows. */
  lemma {:induction false} EndStable(st: State, tid: nat, st': State)
    requires CacheValid(st') && st.cache.ends <= st'.cache.ends
    requires -EndOf(st, tid) - 2 < |st'.cache.ends| && st'.cache.ends[-EndOf(st, tid) - 2] == tid
    ensures EndOf(st', tid) == EndOf(st, tid)
  {
    EndAgain(st'.cache, tid, -EndOf(st, tid) - 2, st');
  }
}
