/** The iterator calls, said in terms of the plain map alone. */
module TableMapIterators {
  import opened Basics
  import opened TableStore
  import opened TableTheory
  import opened TableIterators
  import opened TableRuns
  import opened TableContents

  /** One table of the map, under its name. */
  datatype Name = Name(code: nat, scope: nat, table: nat) {
    function Key(pk: nat): Key {
      TableContents.Key(code, scope, table, pk)
    }
  }

  type Map = map<Key, (Account, bytes)>

  ghost predicate HasKeys(m: Map, n: Name) {
    exists pk :: n.Key(pk) in m
  }

  /** The first key of the table from `lo` on. */
  ghost predicate First(m: Map, n: Name, lo: nat, pk: nat) {
    lo <= pk && n.Key(pk) in m && forall q :: lo <= q < pk ==> n.Key(q) !in m
  }

  ghost predicate NoneFrom(m: Map, n: Name, lo: nat) {
    forall q :: q >= lo ==> n.Key(q) !in m
  }

  /** The last key of the table below `hi`. */
  ghost predicate Last(m: Map, n: Name, hi: nat, pk: nat) {
    pk < hi && n.Key(pk) in m && forall q :: pk < q < hi ==> n.Key(q) !in m
  }

  ghost predicate NoneBelow(m: Map, n: Name, hi: nat) {
    forall q: nat :: q < hi ==> n.Key(q) !in m
  }

  /** The end iterator of the table. */
  predicate AtEnd(st: State, it: int, n: Name) {
    it < -1 && -it - 2 < |st.cache.ends| && KeyOf(st.db.tables, st.cache.ends[-it - 2], 0) == Some(n.Key(0))
  }

  /* ---------- rows and keys ---------- */

  predicate NamedAt(db: Db, i: nat, n: Name) {
    i < |db.tables| && db.tables[i].code == n.code && db.tables[i].scope == n.scope && db.tables[i].name == n.table
  }

  lemma {:induction false} KeyHere(db: Db, i: nat, n: Name, pk: nat)
    requires Valid(db) && NamedAt(db, i, n)
    ensures KeyOf(db.tables, db.tables[i].id, pk) == Some(n.Key(pk))
    ensures n.Key(pk) in Contents(db) <==> Position(db.rows, db.tables[i].id, pk) < |db.rows|
  {
    hide Contents, Position, TableById;
    TableByIdAt(db.tables, db.nextId, i);
    KeyTaken(db, i, pk);
  }

  lemma {:induction false} RowIsKey(db: Db, i: nat, n: Name, p: nat)
    requires Valid(db) && NamedAt(db, i, n) && p < |db.rows| && db.rows[p].tid == db.tables[i].id
    ensures n.Key(db.rows[p].pk) in Contents(db)
  {
    hide Contents, Position, Valid;
    ValidSorted(db);
    PositionOf(db.rows, p);
    KeyHere(db, i, n, db.rows[p].pk);
  }

  lemma {:induction false} TableExists(db: Db, n: Name)
    requires Valid(db)
    ensures FindTable(db.tables, n.code, n.scope, n.table) < |db.tables| <==> HasKeys(Contents(db), n)
  {
    hide Contents, FindTable, Position, TableById, Conserved, RowsHoused;
    var i := FindTable(db.tables, n.code, n.scope, n.table);
    if i < |db.tables| {
      TableIffRow(db, db.tables[i].id);
      assert HasTable(db.tables, db.tables[i].id);
      var p :| 0 <= p < |db.rows| && db.rows[p].tid == db.tables[i].id;
      RowIsKey(db, i, n, p);
    } else {
      forall pk ensures n.Key(pk) !in Contents(db) {
        NoTableNoKey(db, n.code, n.scope, n.table, pk);
      }
    }
  }

  /* ---------- a place in the index ---------- */

  /** The place `p` splits the index at (tid, pk). */
  ghost predicate Splits(rows: seq<Row>, tid: nat, pk: nat, p: nat) {
    && p <= |rows|
    && (forall j :: 0 <= j < p ==> Less(rows[j].tid, rows[j].pk, tid, pk))
    && (p < |rows| ==> !Less(rows[p].tid, rows[p].pk, tid, pk))
  }

  /** The row at a split is the first key from there on. */
  lemma {:induction false} SplitIsFirst(db: Db, i: nat, n: Name, lo: nat, p: nat)
    requires Valid(db) && NamedAt(db, i, n) && Splits(db.rows, db.tables[i].id, lo, p)
    ensures if p < |db.rows| && db.rows[p].tid == db.tables[i].id then First(Contents(db), n, lo, db.rows[p].pk)
            else NoneFrom(Contents(db), n, lo)
  {
    hide Contents, Position, Valid;
    var tid := db.tables[i].id;
    var here := p < |db.rows| && db.rows[p].tid == tid;
    if here {
      RowIsKey(db, i, n, p);
    }
    forall q | q >= lo && (here ==> q < db.rows[p].pk) ensures n.Key(q) !in Contents(db) {
      KeyHere(db, i, n, q);
      ValidSorted(db);
      NotBetween(db.rows, tid, lo, p, q);
    }
  }

  lemma {:induction false} NotBetween(rows: seq<Row>, tid: nat, lo: nat, p: nat, q: nat)
    requires Sorted(rows) && Splits(rows, tid, lo, p) && q >= lo
    requires p < |rows| && rows[p].tid == tid ==> q < rows[p].pk
    ensures Position(rows, tid, q) == |rows|
  {
    hide Position;
    var x := Position(rows, tid, q);
    assert x < |rows| && p < x ==> RowLess(rows[p], rows[x]);
  }

  /** The row before a split is the last key below it. */
  lemma {:induction false} SplitIsLast(db: Db, i: nat, n: Name, hi: nat, p: nat)
    requires Valid(db) && NamedAt(db, i, n) && Splits(db.rows, db.tables[i].id, hi, p)
    ensures if p > 0 && db.rows[p - 1].tid == db.tables[i].id then Last(Contents(db), n, hi, db.rows[p - 1].pk)
            else NoneBelow(Contents(db), n, hi)
  {
    hide Contents, Position, Valid;
    var tid := db.tables[i].id;
    var here := p > 0 && db.rows[p - 1].tid == tid;
    if here {
      RowIsKey(db, i, n, p - 1);
    }
    forall q: nat | q < hi && (here ==> db.rows[p - 1].pk < q) ensures n.Key(q) !in Contents(db) {
      KeyHere(db, i, n, q);
      ValidSorted(db);
      NotBefore(db.rows, tid, hi, p, q);
    }
  }

  lemma {:induction false} NotBefore(rows: seq<Row>, tid: nat, hi: nat, p: nat, q: nat)
    requires Sorted(rows) && Splits(rows, tid, hi, p) && q < hi
    requires p > 0 && rows[p - 1].tid == tid ==> rows[p - 1].pk < q
    ensures Position(rows, tid, q) == |rows|
  {
    hide Position;
    var x := Position(rows, tid, q);
    assert x < |rows| && p < x ==> RowLess(rows[p], rows[x]);
    assert x < p - 1 ==> RowLess(rows[x], rows[p - 1]);
  }

  /* ---------- the iterators given out ---------- */

  /** The iterator of the first key from `lo` on, or the end of the table. */
  ghost predicate Forward(st: State, it: int, m: Map, n: Name, lo: nat) {
    if NoneFrom(m, n, lo) then AtEnd(st, it, n) else exists pk :: First(m, n, lo, pk) && Behind(st, it) == Some(n.Key(pk))
  }

  /** The iterator of the last key below `hi`, or -1. */
  ghost predicate Backward(st: State, it: int, m: Map, n: Name, hi: nat) {
    if NoneBelow(m, n, hi) then it == -1 else exists pk :: Last(m, n, hi, pk) && Behind(st, it) == Some(n.Key(pk))
  }

  lemma {:induction false} AtIsForward(st: State, i: nat, n: Name, lo: nat, p: nat)
    requires StateValid(st) && NamedAt(st.db, i, n) && Splits(st.db.rows, st.db.tables[i].id, lo, p)
    ensures var (st', it) := At(st, st.db.tables[i].id, p); Forward(st', it, Contents(st.db), n, lo)
  {
    hide Contents, Valid, CacheValid, At, Splits, Position, KeyOf, CacheTable;
    var tid := st.db.tables[i].id;
    AtKeeps(st, tid, p);
    SplitIsFirst(st.db, i, n, lo, p);
    KeyHere(st.db, i, n, 0);
    if p < |st.db.rows| && st.db.rows[p].tid == tid {
      KeyHere(st.db, i, n, st.db.rows[p].pk);
      assert First(Contents(st.db), n, lo, st.db.rows[p].pk);
    }
  }

  lemma {:induction false} BeforeIsBackward(st: State, i: nat, n: Name, hi: nat, p: nat)
    requires StateValid(st) && NamedAt(st.db, i, n) && st.db.tables[i].id in st.cache.ends
    requires Splits(st.db.rows, st.db.tables[i].id, hi, p)
    ensures var (st', it) := Before(st, st.db.tables[i].id, p); Backward(st', it, Contents(st.db), n, hi)
  {
    hide Contents, Valid, CacheValid, Position, KeyOf;
    var tid := st.db.tables[i].id;
    SplitIsLast(st.db, i, n, hi, p);
    if p > 0 && st.db.rows[p - 1].tid == tid {
      KeyHere(st.db, i, n, st.db.rows[p - 1].pk);
      assert Last(Contents(st.db), n, hi, st.db.rows[p - 1].pk);
    }
  }

  /* ---------- the calls ---------- */

  /** `find`: the key, the end of a table without it, or -1 where there is no table. */
  lemma {:induction false} FindExactly(st: State, n: Name, pk: nat)
    requires StateValid(st)
    ensures var (st', it) := Find(st, n.code, n.scope, n.table, pk);
            var m := Contents(st.db);
            && st'.db == st.db
            && (if !HasKeys(m, n) then it == -1 && st' == st
                else if n.Key(pk) in m then Behind(st', it) == Some(n.Key(pk)) else AtEnd(st', it, n))
  {
    hide Contents, Valid, CacheValid, At, Position, KeyOf, FindTable, HasKeys, CacheTable;
    TableExists(st.db, n);
    var i := FindTable(st.db.tables, n.code, n.scope, n.table);
    if i < |st.db.tables| {
      KeyHere(st.db, i, n, pk);
      KeyHere(st.db, i, n, 0);
      AtKeeps(st, st.db.tables[i].id, Position(st.db.rows, st.db.tables[i].id, pk));
    }
  }

  /** `lowerbound`: the first key not below. */
  lemma {:induction false} LowerExactly(st: State, n: Name, pk: nat)
    requires StateValid(st)
    ensures var (st', it) := Lower(st, n.code, n.scope, n.table, pk);
            if !HasKeys(Contents(st.db), n) then it == -1 && st' == st else Forward(st', it, Contents(st.db), n, pk)
  {
    hide Contents, Valid, CacheValid, At, FindTable, HasKeys, Forward, LowerBound;
    TableExists(st.db, n);
    var i := FindTable(st.db.tables, n.code, n.scope, n.table);
    if i < |st.db.tables| {
      AtIsForward(st, i, n, pk, LowerBound(st.db.rows, st.db.tables[i].id, pk));
    }
  }

  /** `upperbound`: the first key above. */
  lemma {:induction false} UpperExactly(st: State, n: Name, pk: nat)
    requires StateValid(st)
    ensures var (st', it) := Upper(st, n.code, n.scope, n.table, pk);
            if !HasKeys(Contents(st.db), n) then it == -1 && st' == st else Forward(st', it, Contents(st.db), n, pk + 1)
  {
    hide Contents, Valid, CacheValid, At, FindTable, HasKeys, Forward, UpperBound;
    TableExists(st.db, n);
    var i := FindTable(st.db.tables, n.code, n.scope, n.table);
    if i < |st.db.tables| {
      AtIsForward(st, i, n, pk + 1, UpperBound(st.db.rows, st.db.tables[i].id, pk));
    }
  }

  /** `end`: the end iterator, or -1 where there is no table. */
  lemma {:induction false} EndExactly(st: State, n: Name)
    requires StateValid(st)
    ensures var (st', it) := End(st, n.code, n.scope, n.table);
            st'.db == st.db && if !HasKeys(Contents(st.db), n) then it == -1 && st' == st else AtEnd(st', it, n)
  {
    hide Contents, Valid, CacheValid, FindTable, HasKeys, CacheTable, KeyOf;
    TableExists(st.db, n);
    var i := FindTable(st.db.tables, n.code, n.scope, n.table);
    if i < |st.db.tables| {
      CacheTableKeeps(st, st.db.tables[i].id);
      KeyHere(st.db, i, n, 0);
    }
  }

  /** What stands behind an iterator: a place in the index and a table. */
  lemma {:induction false} BehindIs(st: State, it: int) returns (p: nat, i: nat, n: Name)
    requires StateValid(st) && Get(st.cache, it).Some?
    ensures p < |st.db.rows| && NamedAt(st.db, i, n) && st.db.tables[i].id == st.db.rows[p].tid && st.db.rows[p].tid in st.cache.ends
    ensures Get(st.cache, it) == Some(Ref(st.db.rows[p].tid, st.db.rows[p].pk)) && Behind(st, it) == Some(n.Key(st.db.rows[p].pk))
    ensures Position(st.db.rows, st.db.rows[p].tid, st.db.rows[p].pk) == p
  {
    hide Valid, TableById, Position;
    Located(st, it);
    LocateSucceeds(st, it);
    p, i := Locate(st, it).value.0, Locate(st, it).value.1;
    var t := st.db.tables[i];
    n := Name(t.code, t.scope, t.name);
    hide KeyOf;
    KeyHere(st.db, i, n, st.db.rows[p].pk);
  }

  /** `next`: from a row the following key of its table or its end; from an end -1; else an error. */
  lemma {:induction false} NextExactly(st: State, it: int)
    requires StateValid(st)
    ensures it < -1 ==> Next(st, it) == Some((st, -1))
    ensures it >= -1 ==> (Next(st, it).Some? <==> Behind(st, it).Some?)
    ensures it >= -1 && Behind(st, it).Some? ==>
              var k, (st', it') := Behind(st, it).value, Next(st, it).value;
              Forward(st', it', Contents(st.db), Name(k.code, k.scope, k.table), k.primary + 1)
  {
    hide Contents, Valid, CacheValid, At, Forward, Position, KeyOf;
    if it >= -1 && Get(st.cache, it).Some? {
      var p, i, n := BehindIs(st, it);
      ValidSorted(st.db);
      AtIsForward(st, i, n, st.db.rows[p].pk + 1, p + 1);
    }
  }

  /** `previous`: from a row the key before it in its table or -1; from an end the last key of the table. */
  lemma {:induction false} PreviousExactly(st: State, it: int)
    requires StateValid(st) && it >= -1
    ensures Previous(st, it).Some? <==> Behind(st, it).Some?
    ensures Behind(st, it).Some? ==>
              var k, (st', it') := Behind(st, it).value, Previous(st, it).value;
              Backward(st', it', Contents(st.db), Name(k.code, k.scope, k.table), k.primary)
  {
    hide Contents, Valid, CacheValid, Before, Backward, Position, KeyOf;
    if Get(st.cache, it).Some? {
      var p, i, n := BehindIs(st, it);
      ValidSorted(st.db);
      BeforeIsBackward(st, i, n, st.db.rows[p].pk, p);
    }
  }

  lemma {:induction false} PreviousOfEnd(st: State, it: int, n: Name, hi: nat)
    requires StateValid(st) && AtEnd(st, it, n) && NoneFrom(Contents(st.db), n, hi)
    ensures Previous(st, it).Some?
    ensures var (st', it') := Previous(st, it).value; Backward(st', it', Contents(st.db), n, hi)
  {
    hide Contents, Valid, CacheValid, Before, Backward, Position, TableById, TableUpperBound, NoneFrom;
    var tid := st.cache.ends[-it - 2];
    var i := TableById(st.db.tables, tid);
    var p := TableUpperBound(st.db.rows, tid);
    ValidSorted(st.db);
    forall j | 0 <= j < p ensures Less(st.db.rows[j].tid, st.db.rows[j].pk, tid, hi) {
      if st.db.rows[j].tid == tid {
        RowIsKey(st.db, i, n, j);
        NotFrom(Contents(st.db), n, hi, st.db.rows[j].pk);
      }
    }
    BeforeIsBackward(st, i, n, hi, p);
  }

  lemma {:induction false} NotFrom(m: Map, n: Name, hi: nat, pk: nat)
    requires NoneFrom(m, n, hi) && n.Key(pk) in m
    ensures pk < hi
  {
  }

  /** An end number that was never given out is an error. */
  lemma {:induction false} NoSuchEnd(st: State, it: int)
    requires it < -1
    ensures Previous(st, it).Some? <==> -it - 2 < |st.cache.ends|
  {
    hide TableUpperBound;
  }
}
