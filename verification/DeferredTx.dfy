/** Deferred transactions: scheduling, replacing and cancelling, and the RAM charged for them. */
module DeferredTx {
  import opened Basics
  import opened Sums
  import opened TableStore

  const GTX_OVERHEAD: int := 272

  datatype Gtx = Gtx(sender: Account, senderId: nat, payer: Account, size: nat)

  /** The live deferred transactions and the RAM charged through these calls. */
  datatype State = State(live: seq<Gtx>, ram: map<Account, int>)

  /** What the scheduling action may do. */
  datatype Caller = Caller(receiver: Account, actAccount: Account, privileged: bool, skipAuth: bool,
                           producing: bool, billingInNotify: bool, authorized: set<Account>)

  /** The transaction to schedule, with the verdicts on it: `referencesOk` of the check of the accounts
      it names, `netOk` of the charge for retiring it, `authOk` of the authorization manager on its
      actions; `selfOnly` says that all of them go to the receiver. */
  datatype Trx = Trx(contextFree: nat, size: nat, referencesOk: bool, netOk: bool, authOk: bool, selfOnly: bool)

  function Cost(g: Gtx): int {
    GTX_OVERHEAD + g.size
  }

  function PaidBy(a: Account): Gtx -> int {
    (g: Gtx) => if g.payer == a then Cost(g) else 0
  }

  function FindGtx(live: seq<Gtx>, sender: Account, id: nat): (i: nat)
    ensures i <= |live|
    ensures i < |live| ==> live[i].sender == sender && live[i].senderId == id
    ensures forall j :: 0 <= j < i ==> !(live[j].sender == sender && live[j].senderId == id)
  {
    if live == [] || (live[0].sender == sender && live[0].senderId == id) then 0
    else 1 + FindGtx(live[1..], sender, id)
  }

  function Charge(ram: map<Account, int>, a: Account, delta: int): map<Account, int> {
    ram[a := RamOf(ram, a) + delta]
  }

  /** The checks before anything is stored. */
  predicate Admitted(c: Caller, payer: Account, trx: Trx) {
    && trx.contextFree == 0 && trx.referencesOk && trx.netOk
    && (c.skipAuth || c.privileged ||
        ((payer == c.receiver || payer in c.authorized) && (trx.authOk || (trx.selfOnly && !c.producing))))
  }

  predicate MayBill(c: Caller, payer: Account) {
    c.billingInNotify || c.receiver == c.actAccount || c.receiver == payer || c.privileged
  }

  /** `schedule_deferred_transaction`.  Replacing keeps the old charge: the refund is commented out. */
  function Schedule(st: State, c: Caller, id: nat, payer: Account, trx: Trx, replace: bool): Option<State> {
    var i := FindGtx(st.live, c.receiver, id);
    var g := Gtx(c.receiver, id, payer, trx.size);
    if !Admitted(c, payer, trx) || (i < |st.live| && (!replace || c.producing)) || !MayBill(c, payer) then None
    else
      Some(State(if i < |st.live| then st.live[i := g] else st.live + [g], Charge(st.ram, payer, Cost(g))))
  }

  /** `cancel_deferred_transaction`; the second result says whether there was anything to cancel. */
  function Cancel(st: State, sender: Account, id: nat): (State, bool) {
    var i := FindGtx(st.live, sender, id);
    if i == |st.live| then (st, false)
    else (State(RemoveAt(st.live, i), Charge(st.ram, st.live[i].payer, -Cost(st.live[i]))), true)
  }

  /* ---------- runs ---------- */

  datatype Call =
    | ScheduleCall(c: Caller, id: nat, payer: Account, trx: Trx, replace: bool)
    | CancelCall(sender: Account, id: nat)

  function Step(st: State, call: Call): State {
    match call
    case ScheduleCall(c, id, payer, trx, replace) =>
      (match Schedule(st, c, id, payer, trx, replace) case Some(st') => st' case None => st)
    case CancelCall(sender, id) => Cancel(st, sender, id).0
  }

  /** The transaction a step overwrites, if any. */
  function Replaced(st: State, call: Call): Option<Gtx> {
    if call.ScheduleCall? && Schedule(st, call.c, call.id, call.payer, call.trx, call.replace).Some? &&
       FindGtx(st.live, call.c.receiver, call.id) < |st.live|
    then Some(st.live[FindGtx(st.live, call.c.receiver, call.id)])
    else None
  }

  function Run(st: State, calls: seq<Call>): State
    decreases |calls|
  {
    if calls == [] then st else Run(Step(st, calls[0]), calls[1..])
  }

  /** The transactions overwritten during a run, oldest first. */
  function ReplacedIn(st: State, calls: seq<Call>): seq<Gtx>
    decreases |calls|
  {
    if calls == [] then []
    else
      (match Replaced(st, calls[0]) case Some(g) => [g] case None => []) +
      ReplacedIn(Step(st, calls[0]), calls[1..])
  }

  ghost predicate Unique(live: seq<Gtx>) {
    forall i, j :: 0 <= i < j < |live| ==>
      !(live[i].sender == live[j].sender && live[i].senderId == live[j].senderId)
  }

  /** What `a` has been charged beyond the transactions it pays for now. */
  ghost function Excess(st: State, a: Account): int {
    RamOf(st.ram, a) - Sum(st.live, PaidBy(a))
  }

  lemma {:induction false} StepUnique(st: State, call: Call)
    requires Unique(st.live)
    ensures Unique(Step(st, call).live)
  {
    if call.CancelCall? {
      var i := FindGtx(st.live, call.sender, call.id);
      if i < |st.live| {
        var live := RemoveAt(st.live, i);
        assert forall j :: 0 <= j < |live| ==> live[j] == st.live[if j < i then j else j + 1];
      }
    }
  }

  /** A step adds to the excess exactly the cost of the transaction it overwrites. */
  lemma {:induction false} StepExcess(st: State, call: Call, a: Account)
    ensures Excess(Step(st, call), a) ==
            Excess(st, a) + match Replaced(st, call) case Some(g) => PaidBy(a)(g) case None => 0
  {
    hide Sum, FindGtx, RemoveAt;
    match call {
      case ScheduleCall(c, id, payer, trx, replace) =>
        var i := FindGtx(st.live, c.receiver, id);
        var g := Gtx(c.receiver, id, payer, trx.size);
        if Schedule(st, c, id, payer, trx, replace).Some? {
          if i < |st.live| {
            SumReplace(st.live, i, g, PaidBy(a));
          } else {
            SumAppend(st.live, [g], PaidBy(a));
            SumOne(g, PaidBy(a));
          }
        }
      case CancelCall(sender, id) =>
        var i := FindGtx(st.live, sender, id);
        if i < |st.live| {
          SumRemove(st.live, i, PaidBy(a));
        }
    }
  }

  lemma {:induction false} RunExcess(st: State, calls: seq<Call>, a: Account)
    ensures Excess(Run(st, calls), a) == Excess(st, a) + Sum(ReplacedIn(st, calls), PaidBy(a))
    decreases |calls|
  {
    hide Excess, Replaced, Step;
    if calls != [] {
      StepExcess(st, calls[0], a);
      var st1, rest := Step(st, calls[0]), ReplacedIn(Step(st, calls[0]), calls[1..]);
      RunExcess(st1, calls[1..], a);
      match Replaced(st, calls[0])
      case Some(g) =>
        SumAppend([g], rest, PaidBy(a));
        SumOne(g, PaidBy(a));
      case None =>
        assert [] + rest == rest;
    }
  }

  lemma {:induction false} RunUnique(st: State, calls: seq<Call>)
    requires Unique(st.live)
    ensures Unique(Run(st, calls).live)
    decreases |calls|
  {
    hide Step, Unique;
    if calls != [] {
      StepUnique(st, calls[0]);
      RunUnique(Step(st, calls[0]), calls[1..]);
    }
  }

  lemma {:induction false} PaidSum(gs: seq<Gtx>, a: Account)
    ensures Sum(gs, PaidBy(a)) >= 0
    ensures Sum(gs, PaidBy(a)) == 0 <==> forall i :: 0 <= i < |gs| ==> gs[i].payer != a
  {
    if gs != [] {
      PaidSum(gs[1..], a);
      assert forall i :: 0 < i < |gs| ==> gs[i] == gs[1..][i - 1];
    }
  }

  /** After any run there is at most one live transaction per sender and id; an account has been
      charged for what it pays for now plus what was overwritten while it paid; and the charge is
      exact if and only if no transaction it paid for was overwritten. */
  lemma {:induction false} AnyRun(calls: seq<Call>, a: Account)
    ensures var start := State([], map[]);
            var st := Run(start, calls);
            && Unique(st.live)
            && RamOf(st.ram, a) == Sum(st.live, PaidBy(a)) + Sum(ReplacedIn(start, calls), PaidBy(a))
            && (RamOf(st.ram, a) == Sum(st.live, PaidBy(a)) <==>
                forall i :: 0 <= i < |ReplacedIn(start, calls)| ==> ReplacedIn(start, calls)[i].payer != a)
  {
    hide Run, ReplacedIn;
    var start := State([], map[]);
    RunUnique(start, calls);
    RunExcess(start, calls, a);
    PaidSum(ReplacedIn(start, calls), a);
  }

  /* ---------- what one call does ---------- */

  /** The live transactions as a table: sender and id give payer and size. */
  ghost function Scheduled(live: seq<Gtx>): map<(Account, nat), (Account, nat)>
    requires Unique(live)
  {
    map i | 0 <= i < |live| :: (live[i].sender, live[i].senderId) := (live[i].payer, live[i].size)
  }

  function KeyOf(g: Gtx): (Account, nat) {
    (g.sender, g.senderId)
  }

  lemma {:induction false} Entered(live: seq<Gtx>, i: nat)
    requires Unique(live) && i < |live|
    ensures KeyOf(live[i]) in Scheduled(live) && Scheduled(live)[KeyOf(live[i])] == (live[i].payer, live[i].size)
  {
    assert (live[i].sender, live[i].senderId) in Scheduled(live);
  }

  lemma {:induction false} EntryOf(live: seq<Gtx>, k: (Account, nat)) returns (i: nat)
    requires Unique(live) && k in Scheduled(live)
    ensures i < |live| && KeyOf(live[i]) == k && Scheduled(live)[k] == (live[i].payer, live[i].size)
  {
    i :| i < |live| && (live[i].sender, live[i].senderId) == k;
  }

  lemma {:induction false} Found(live: seq<Gtx>, sender: Account, id: nat)
    requires Unique(live)
    ensures var i := FindGtx(live, sender, id);
            && ((sender, id) in Scheduled(live) <==> i < |live|)
            && (i < |live| ==> Scheduled(live)[(sender, id)] == (live[i].payer, live[i].size))
  {
    hide FindGtx, Scheduled;
    var i := FindGtx(live, sender, id);
    if i < |live| {
      Entered(live, i);
    } else if (sender, id) in Scheduled(live) {
      var j := EntryOf(live, (sender, id));
      assert false;
    }
  }

  /** A cancel takes exactly the transaction of that sender and id out of the table, returns exactly its charge
      to its payer, and answers whether there was one. */
  lemma {:induction false} CancelExactly(st: State, sender: Account, id: nat, a: Account)
    requires Unique(st.live)
    ensures var (st', found) := Cancel(st, sender, id);
            var before, key := Scheduled(st.live), (sender, id);
            && Unique(st'.live) && Scheduled(st'.live) == before - {key} && (found <==> key in before)
            && RamOf(st'.ram, a) == RamOf(st.ram, a) - if found && before[key].0 == a then 272 + before[key].1 else 0
  {
    hide FindGtx, Scheduled, Unique;
    var i := FindGtx(st.live, sender, id);
    var st' := Cancel(st, sender, id).0;
    StepUnique(st, CancelCall(sender, id));
    Found(st.live, sender, id);
    if i < |st.live| {
      CancelledTable(st.live, i);
    }
  }

  lemma {:induction false} SameKey(live: seq<Gtx>, i: nat, j: nat)
    requires Unique(live) && i < |live| && j < |live| && KeyOf(live[i]) == KeyOf(live[j])
    ensures i == j
  {
  }

  lemma {:induction false} Remaining<T>(s: seq<T>, i: nat, j: nat)
    requires i < |s| && j < |s| - 1
    ensures |RemoveAt(s, i)| == |s| - 1 && RemoveAt(s, i)[j] == s[if j < i then j else j + 1]
  {
  }

  lemma {:induction false} StaysEntered(live: seq<Gtx>, i: nat, k: (Account, nat))
    requires Unique(live) && i < |live| && Unique(RemoveAt(live, i)) && k in Scheduled(live) && k != KeyOf(live[i])
    ensures k in Scheduled(RemoveAt(live, i)) && Scheduled(RemoveAt(live, i))[k] == Scheduled(live)[k]
  {
    hide Scheduled, Unique, KeyOf, RemoveAt;
    var j := EntryOf(live, k);
    var j' := if j < i then j else j - 1;
    Remaining(live, i, j');
    Entered(RemoveAt(live, i), j');
  }

  lemma {:induction false} WasEntered(live: seq<Gtx>, i: nat, k: (Account, nat))
    requires Unique(live) && i < |live| && Unique(RemoveAt(live, i)) && k in Scheduled(RemoveAt(live, i))
    ensures k in Scheduled(live) && k != KeyOf(live[i])
  {
    assert |RemoveAt(live, i)| == |live| - 1;
    hide Scheduled, Unique, KeyOf, RemoveAt;
    var j' := EntryOf(RemoveAt(live, i), k);
    var j := if j' < i then j' else j' + 1;
    Remaining(live, i, j');
    Entered(live, j);
    if KeyOf(live[j]) == KeyOf(live[i]) {
      SameKey(live, i, j);
    }
  }

  lemma {:induction false} CancelledTable(live: seq<Gtx>, i: nat)
    requires Unique(live) && i < |live| && Unique(RemoveAt(live, i))
    ensures Scheduled(RemoveAt(live, i)) == Scheduled(live) - {KeyOf(live[i])}
  {
    hide Scheduled, Unique, KeyOf, RemoveAt;
    var m, m', key := Scheduled(live), Scheduled(RemoveAt(live, i)), KeyOf(live[i]);
    forall k | k in m && k != key ensures k in m' && m'[k] == m[k] {
      StaysEntered(live, i, k);
    }
    forall k | k in m' ensures k in m && k != key {
      WasEntered(live, i, k);
    }
  }

  lemma {:induction false} ScheduledTable(live: seq<Gtx>, live': seq<Gtx>, i: nat, g: Gtx)
    requires Unique(live) && Unique(live') && i < |live'|
    requires live' == if i < |live| then live[i := g] else live + [g]
    requires i < |live| ==> KeyOf(live[i]) == KeyOf(g)
    ensures Scheduled(live') == Scheduled(live)[KeyOf(g) := (g.payer, g.size)]
  {
    hide Scheduled, Unique, KeyOf;
    var key := KeyOf(g);
    var m, m' := Scheduled(live)[key := (g.payer, g.size)], Scheduled(live');
    Entered(live', i);
    forall k | k in m && k != key ensures k in m' && m'[k] == m[k] {
      var j := EntryOf(live, k);
      Entered(live', j);
    }
    forall k | k in m' && k != key ensures k in m {
      var j := EntryOf(live', k);
      Entered(live, j);
    }
  }

  /** Scheduling enters exactly that payer and size under the receiver and the id and charges exactly its size,
      or is refused: for context-free actions, a verdict against it, a payer that has not agreed, a charge
      to another account during a notification, or a transaction there that may not be replaced. */
  lemma {:induction false} ScheduleExactly(st: State, c: Caller, id: nat, payer: Account, trx: Trx, replace: bool, a: Account)
    requires Unique(st.live)
    ensures var r := Schedule(st, c, id, payer, trx, replace);
            var before, key := Scheduled(st.live), (c.receiver, id);
            var checked := !c.skipAuth && !c.privileged;
            && (r.None? <==>
                || trx.contextFree > 0 || !trx.referencesOk || !trx.netOk
                || (checked && payer != c.receiver && payer !in c.authorized)
                || (checked && !trx.authOk && (!trx.selfOnly || c.producing))
                || (!c.billingInNotify && c.receiver != c.actAccount && c.receiver != payer && !c.privileged)
                || (key in before && (!replace || c.producing)))
            && (r.Some? ==>
                && Unique(r.value.live) && Scheduled(r.value.live) == before[key := (payer, trx.size)]
                && RamOf(r.value.ram, a) == RamOf(st.ram, a) + if a == payer then 272 + trx.size else 0)
  {
    hide FindGtx, Scheduled, Unique;
    var r := Schedule(st, c, id, payer, trx, replace);
    var i, g := FindGtx(st.live, c.receiver, id), Gtx(c.receiver, id, payer, trx.size);
    Found(st.live, c.receiver, id);
    if r.Some? {
      StepUnique(st, ScheduleCall(c, id, payer, trx, replace));
      ScheduledTable(st.live, r.value.live, i, g);
    }
  }

  /** Replacing happens, and leaks: after scheduling twice under one id the payer has been charged for
      both transactions, but only the second is live. */
  lemma {:induction false} ReplacementLeaks(c: Caller, id: nat, payer: Account, first: Trx, second: Trx)
    requires !c.producing && MayBill(c, payer) && Admitted(c, payer, first) && Admitted(c, payer, second)
    ensures var start := State([], map[]);
            var calls := [ScheduleCall(c, id, payer, first, true), ScheduleCall(c, id, payer, second, true)];
            var g1, g2 := Gtx(c.receiver, id, payer, first.size), Gtx(c.receiver, id, payer, second.size);
            && ReplacedIn(start, calls) == [g1]
            && Run(start, calls).live == [g2]
            && RamOf(Run(start, calls).ram, payer) == Cost(g1) + Cost(g2)
  {
    var start := State([], map[]);
    var call1, call2 := ScheduleCall(c, id, payer, first, true), ScheduleCall(c, id, payer, second, true);
    var g1, g2 := Gtx(c.receiver, id, payer, first.size), Gtx(c.receiver, id, payer, second.size);
    var st1 := Step(start, call1);
    assert [] + [g1] == [g1];
    assert st1 == State([g1], Charge(map[], payer, Cost(g1)));
    var st2 := Step(st1, call2);
    assert [g1][0 := g2] == [g2];
    assert st2 == State([g2], Charge(st1.ram, payer, Cost(g2)));
    hide Step, Replaced, Schedule, FindGtx;
    TwoCalls(start, call1, call2);
  }

  lemma {:induction false} TwoCalls(st: State, call1: Call, call2: Call)
    ensures Run(st, [call1, call2]) == Step(Step(st, call1), call2)
    ensures ReplacedIn(st, [call1, call2]) ==
            (match Replaced(st, call1) case Some(g) => [g] case None => []) +
            (match Replaced(Step(st, call1), call2) case Some(g) => [g] case None => [])
  {
    hide Step, Replaced;
    assert [call1, call2][1..] == [call2] && [call2][1..] == [];
    var st1 := Step(st, call1);
    assert Run(Step(st1, call2), []) == Step(st1, call2);
    assert Run(st1, [call2]) == Step(st1, call2);
    var over := match Replaced(st1, call2) case Some(g) => [g] case None => [];
    assert ReplacedIn(Step(st1, call2), []) == [];
    assert ReplacedIn(st1, [call2]) == over + [] == over;
  }

  /* ---------- in place ---------- */

  class DeferredIndex {
    var live: seq<Gtx>
    var ram: map<Account, int>

    constructor ()
      ensures View() == State([], map[])
    {
      live, ram := [], map[];
    }

    function View(): State
      reads this
    {
      State(live, ram)
    }

    method ScheduleDeferred(c: Caller, id: nat, payer: Account, trx: Trx, replace: bool) returns (ok: bool)
      modifies this
      ensures ok <==> Schedule(old(View()), c, id, payer, trx, replace).Some?
      ensures View() == Step(old(View()), ScheduleCall(c, id, payer, trx, replace))
    {
      if !Admitted(c, payer, trx) {
        return false;
      }
      var before := live;
      var i := FindGtx(live, c.receiver, id);
      var g := Gtx(c.receiver, id, payer, trx.size);
      if i < |live| {
        if !replace || c.producing {
          return false;
        }
        live := live[i := g];
      } else {
        live := live + [g];
      }
      if !MayBill(c, payer) {
        live := before;
        return false;
      }
      ram := Charge(ram, payer, Cost(g));
      return true;
    }

    method CancelDeferred(sender: Account, id: nat) returns (found: bool)
      modifies this
      ensures (View(), found) == Cancel(old(View()), sender, id)
    {
      var i := FindGtx(live, sender, id);
      found := i < |live|;
      if found {
        ram := Charge(ram, live[i].payer, -Cost(live[i]));
        live := RemoveAt(live, i);
      }
    }
  }
}
