/** The table part of `apply_context`: the object whose fields the `db_*_i64` calls change in place. */
module TableContext {
  import opened Basics
  import opened Sums
  import opened TableStore
  import opened TableIterators
  import opened TableRuns

  class ApplyContext {
    // the database
    var tables: seq<Table>
    var rows: seq<Row>
    var nextId: nat
    var ram: map<Account, int>
    // the iterator cache
    var ends: seq<nat>
    var objs: seq<Option<Ref>>
    // the running action
    var receiver: Account
    var actAccount: Account
    var privileged: bool
    var billingInNotify: bool
    var authorized: set<Account>

    constructor ()
      ensures View() == Start
    {
      tables, rows, nextId, ram := [], [], 0, map[];
      ends, objs := [], [];
    }

    function Data(): Db
      reads this
    {
      Db(tables, rows, nextId, ram)
    }

    function View(): State
      reads this
    {
      State(Data(), Cache(ends, objs))
    }

    function Running(): Env
      reads this
    {
      Env(receiver, actAccount, privileged, billingInNotify, authorized)
    }

    method UpdateDbUsage(payer: Account, delta: int) returns (ok: bool)
      modifies this`ram
      ensures ok <==> UpdateUsage(old(Data()), Running(), payer, delta).Some?
      ensures ok ==> Data() == UpdateUsage(old(Data()), Running(), payer, delta).value
    {
      if delta > 0 {
        if !(privileged || payer == receiver) {
          if !(billingInNotify || receiver == actAccount) || payer !in authorized {
            return false;
          }
        }
      }
      ram := ram[payer := RamOf(ram, payer) + delta];
      return true;
    }

    method FindOrCreate(code: nat, scope: nat, name: nat, payer: Account) returns (ok: bool, i: nat)
      modifies this`tables, this`nextId, this`ram
      ensures ok <==> FindOrCreateTable(old(Data()), Running(), code, scope, name, payer).Some?
      ensures ok ==> (Data(), i) == FindOrCreateTable(old(Data()), Running(), code, scope, name, payer).value
    {
      i := FindTable(tables, code, scope, name);
      if i < |tables| {
        return true, i;
      }
      ok := UpdateDbUsage(payer, TABLE_SIZE);
      if ok {
        tables := tables + [Table(nextId, code, scope, name, payer, 0)];
        nextId := nextId + 1;
      }
    }

    method Cached(tid: nat) returns (end: int)
      modifies this`ends
      ensures (Cache(ends, objs), end) == CacheTable(old(Cache(ends, objs)), tid)
    {
      var i := IndexIn(ends, tid);
      if i == |ends| {
        ends := ends + [tid];
      }
      return EndNumber(i);
    }

    method AddIterator(ref: Ref) returns (it: int)
      modifies this`objs
      ensures (Cache(ends, objs), it) == AddRef(old(Cache(ends, objs)), ref)
    {
      var i := IndexIn(objs, Some(ref));
      if i == |objs| {
        objs := objs + [Some(ref)];
      }
      return i;
    }

    method DbStore(scope: nat, name: nat, payer: Account, pk: nat, value: bytes) returns (r: Option<int>)
      modifies this
      ensures Running() == old(Running())
      ensures r.Some? <==> Store(old(View()), Running(), scope, name, payer, pk, value).Some?
      ensures r.Some? ==> (View(), r.value) == Store(old(View()), Running(), scope, name, payer, pk, value).value
    {
      hide LowerBound, Position, InsertAt, FindTable, IndexIn;
      var ok, i := FindOrCreate(receiver, scope, name, payer);
      if !ok || payer == 0 {
        return None;
      }
      var tid := tables[i].id;
      if Position(rows, tid, pk) < |rows| {
        return None;
      }
      var row := Row(tid, pk, payer, value);
      rows := InsertAt(rows, LowerBound(rows, tid, pk), row);
      tables := tables[i := tables[i].(count := tables[i].count + 1)];
      ok := UpdateDbUsage(payer, RowCost(row));
      if !ok {
        return None;
      }
      var _ := Cached(tid);
      var it := AddIterator(Ref(tid, pk));
      return Some(it);
    }

    method DbUpdate(it: int, payer: Account, value: bytes) returns (ok: bool)
      modifies this
      ensures Running() == old(Running())
      ensures ok <==> Update(old(View()), Running(), it, payer, value).Some?
      ensures ok ==> View() == Update(old(View()), Running(), it, payer, value).value
    {
      hide Locate;
      var place := Locate(View(), it);
      if place.None? {
        return false;
      }
      var (p, i) := place.value;
      if tables[i].code != receiver {
        return false;
      }
      var prev := rows[p];
      var newPayer := if payer == 0 then prev.payer else payer;
      var row := prev.(payer := newPayer, value := value);
      if prev.payer != newPayer {
        ok := UpdateDbUsage(prev.payer, -RowCost(prev));
        if ok {
          ok := UpdateDbUsage(newPayer, RowCost(row));
        }
        if !ok {
          return;
        }
      } else if RowCost(prev) != RowCost(row) {
        ok := UpdateDbUsage(prev.payer, RowCost(row) - RowCost(prev));
        if !ok {
          return;
        }
      }
      rows := rows[p := row];
      return true;
    }

    method DbRemove(it: int) returns (ok: bool)
      modifies this
      ensures Running() == old(Running())
      ensures ok <==> Remove(old(View()), Running(), it).Some?
      ensures ok ==> View() == Remove(old(View()), Running(), it).value
    {
      hide Locate, RemoveAt;
      var place := Locate(View(), it);
      if place.None? {
        return false;
      }
      LocatedIsCached(View(), it);
      var (p, i) := place.value;
      if tables[i].code != receiver {
        return false;
      }
      ok := UpdateDbUsage(rows[p].payer, -RowCost(rows[p]));
      if !ok {
        return;
      }
      var t := tables[i];
      tables := tables[i := t.(count := t.count - 1)];
      rows := RemoveAt(rows, p);
      if tables[i].count == 0 {
        ok := UpdateDbUsage(t.payer, -TABLE_SIZE);
        if !ok {
          return;
        }
        tables := RemoveAt(tables, i);
      }
      objs := objs[it := None];
    }

    method IteratorAt(tid: nat, p: nat) returns (it: int)
      modifies this`ends, this`objs
      ensures (View(), it) == At(old(View()), tid, p)
    {
      hide IndexIn;
      it := Cached(tid);
      if p < |rows| && rows[p].tid == tid {
        it := AddIterator(Ref(tid, rows[p].pk));
      }
    }

    method DbFind(code: nat, scope: nat, name: nat, pk: nat) returns (it: int)
      modifies this`ends, this`objs
      ensures (View(), it) == Find(old(View()), code, scope, name, pk)
    {
      hide At;
      var i := FindTable(tables, code, scope, name);
      if i == |tables| {
        return -1;
      }
      it := IteratorAt(tables[i].id, Position(rows, tables[i].id, pk));
    }

    method DbLowerbound(code: nat, scope: nat, name: nat, pk: nat) returns (it: int)
      modifies this`ends, this`objs
      ensures (View(), it) == Lower(old(View()), code, scope, name, pk)
    {
      hide At;
      var i := FindTable(tables, code, scope, name);
      if i == |tables| {
        return -1;
      }
      it := IteratorAt(tables[i].id, LowerBound(rows, tables[i].id, pk));
    }

    method DbUpperbound(code: nat, scope: nat, name: nat, pk: nat) returns (it: int)
      modifies this`ends, this`objs
      ensures (View(), it) == Upper(old(View()), code, scope, name, pk)
    {
      hide At;
      var i := FindTable(tables, code, scope, name);
      if i == |tables| {
        return -1;
      }
      it := IteratorAt(tables[i].id, UpperBound(rows, tables[i].id, pk));
    }

    method DbEnd(code: nat, scope: nat, name: nat) returns (it: int)
      modifies this`ends
      ensures (View(), it) == End(old(View()), code, scope, name)
    {
      var i := FindTable(tables, code, scope, name);
      if i == |tables| {
        return -1;
      }
      it := Cached(tables[i].id);
    }

    method DbNext(it: int) returns (r: Option<int>)
      modifies this`ends, this`objs
      ensures r.Some? <==> Next(old(View()), it).Some?
      ensures r.Some? ==> (View(), r.value) == Next(old(View()), it).value
    {
      hide At, Position;
      if it < -1 {
        return Some(-1);
      }
      var ref := Get(Cache(ends, objs), it);
      if ref.None? || ref.value.tid !in ends {
        return None;
      }
      var p := Position(rows, ref.value.tid, ref.value.pk);
      if p == |rows| {
        return None;
      }
      var next := IteratorAt(ref.value.tid, p + 1);
      return Some(next);
    }

    method IteratorBefore(tid: nat, p: nat) returns (it: int)
      requires p <= |rows|
      modifies this`objs
      ensures (View(), it) == Before(old(View()), tid, p)
    {
      if p == 0 || rows[p - 1].tid != tid {
        return -1;
      }
      it := AddIterator(Ref(tid, rows[p - 1].pk));
    }

    method DbPrevious(it: int) returns (r: Option<int>)
      modifies this`objs
      ensures r.Some? <==> Previous(old(View()), it).Some?
      ensures r.Some? ==> (View(), r.value) == Previous(old(View()), it).value
    {
      hide Before, Position, TableUpperBound;
      var prev: int;
      if it < -1 {
        if -it - 2 >= |ends| {
          return None;
        }
        var tid := ends[-it - 2];
        prev := IteratorBefore(tid, TableUpperBound(rows, tid));
        return Some(prev);
      }
      var ref := Get(Cache(ends, objs), it);
      if ref.None? {
        return None;
      }
      var p := Position(rows, ref.value.tid, ref.value.pk);
      if p == |rows| {
        return None;
      }
      prev := IteratorBefore(ref.value.tid, p);
      return Some(prev);
    }

    method Enter(env: Env)
      modifies this`receiver, this`actAccount, this`privileged, this`billingInNotify, this`authorized
      ensures Running() == env && View() == old(View())
    {
      receiver, actAccount, privileged := env.receiver, env.actAccount, env.privileged;
      billingInNotify, authorized := env.billingInNotify, env.authorized;
    }

    /** One call under the undo session of its transaction: a failed call leaves no trace. */
    method Execute(call: Call)
      modifies this
      ensures View() == Step(old(View()), call)
    {
      hide Store, Update, Remove, Find, Lower, Upper, End, Next, Previous;
      var before := View();
      var ok := true;
      match call {
        case NewContext =>
          ends, objs := [], [];
        case StoreCall(env, scope, name, payer, pk, value) =>
          Enter(env);
          var r := DbStore(scope, name, payer, pk, value);
          ok := r.Some?;
        case UpdateCall(env, it, payer, value) =>
          Enter(env);
          ok := DbUpdate(it, payer, value);
        case RemoveCall(env, it) =>
          Enter(env);
          ok := DbRemove(it);
        case FindCall(code, scope, name, pk) =>
          var _ := DbFind(code, scope, name, pk);
        case LowerCall(code, scope, name, pk) =>
          var _ := DbLowerbound(code, scope, name, pk);
        case UpperCall(code, scope, name, pk) =>
          var _ := DbUpperbound(code, scope, name, pk);
        case EndCall(code, scope, name) =>
          var _ := DbEnd(code, scope, name);
        case NextCall(it) =>
          var r := DbNext(it);
          ok := r.Some?;
        case PreviousCall(it) =>
          var r := DbPrevious(it);
          ok := r.Some?;
      }
      if !ok {
        tables, rows, nextId, ram := before.db.tables, before.db.rows, before.db.nextId, before.db.ram;
        ends, objs := before.cache.ends, before.cache.objs;
      }
    }
  }

  lemma {:induction false} LocatedIsCached(st: State, it: int)
    requires Locate(st, it).Some?
    ensures 0 <= it < |st.cache.objs|
  {
  }
}
