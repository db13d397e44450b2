/** Executing an action: the receiver, then everyone notified, then the inline actions it queued,
    each a tree of its own.  Contract code is an arbitrary function that says what it calls. */
module ActionTree {
  import opened Basics
  import opened Sums
  import opened TableStore
  import opened ActionEffects

  /** The gas account, which neither pays nor causes the fixed fee. */
  const GAS_ACCOUNT: Account := 1
  const FIXED_FEE: int := 100

  datatype Receipt = Receipt(receiver: Account, act: Action, globalSeq: nat, recvSeq: nat, authSeq: map<Account, nat>,
                             codeSeq: nat, abiSeq: nat)

  datatype Trace = Trace(receipt: Receipt, depth: nat, ramDeltas: map<Account, int>, gas: map<Account, int>,
                         inlines: seq<Trace>)

  /* ---------- sequence numbers ---------- */

  datatype Counters = Counters(global: nat, recv: map<Account, nat>, auth: map<Account, nat>,
                               code: map<Account, nat>, abi: map<Account, nat>)

  /** How often the code made this very call. */
  function Calls(es: seq<Effect>, e: Effect): nat {
    if es == [] then 0
    else
      var n := |es| - 1;
      Calls(es[..n], e) + if es[n] == e then 1 else 0
  }

  ghost predicate CodeCounted(before: map<Account, nat>, es: seq<Effect>, after: map<Account, nat>) {
    forall a :: SeqOf(after, a) == SeqOf(before, a) + Calls(es, SetCode(a))
  }

  ghost predicate AbiCounted(before: map<Account, nat>, es: seq<Effect>, after: map<Account, nat>) {
    forall a :: SeqOf(after, a) == SeqOf(before, a) + Calls(es, SetAbi(a))
  }

  /** The numbers of code and ABI updates are kept in 32 bits in a receipt. */
  function Low32(n: nat): nat {
    n % 0x1_0000_0000
  }

  function SeqOf(m: map<Account, nat>, a: Account): nat {
    if a in m then m[a] else 0
  }

  function Mult(auths: seq<Account>, a: Account): nat {
    if auths == [] then 0 else (if auths[0] == a then 1 else 0) + Mult(auths[1..], a)
  }

  function Received(a: Account): Receipt -> int {
    (r: Receipt) => if r.receiver == a then 1 else 0
  }

  function Authorized(a: Account): Receipt -> int {
    (r: Receipt) => Mult(r.act.auths, a)
  }

  function Made(w: World, e: Effect): Receipt -> int {
    (r: Receipt) => Calls(EffectsOf(w, r), e)
  }

  /** The receipt numbered `i` carries the numbers that follow from `origin` and the receipts up to it;
      a code or ABI update made by the execution itself is counted. */
  ghost predicate Numbered(w: World, origin: Counters, receipts: seq<Receipt>, i: nat)
    requires i < |receipts|
  {
    var r := receipts[i];
    && r.globalSeq == origin.global + i + 1
    && r.recvSeq == SeqOf(origin.recv, r.receiver) + Sum(receipts[..i + 1], Received(r.receiver))
    && (forall a <- r.act.auths :: a in r.authSeq &&
          r.authSeq[a] == SeqOf(origin.auth, a) + Sum(receipts[..i + 1], Authorized(a)))
    && var c := r.act.account;
    && Updated(w, origin.code, receipts[..i + 1], SetCode(c), c, r.codeSeq)
    && Updated(w, origin.abi, receipts[..i + 1], SetAbi(c), c, r.abiSeq)
  }

  ghost predicate Updated(w: World, start: map<Account, nat>, receipts: seq<Receipt>, e: Effect, a: Account, number: nat) {
    var total := SeqOf(start, a) + Sum(receipts, Made(w, e));
    total >= 0 && number == Low32(total)
  }

  /** What the counters have come to. */
  ghost predicate Totals(w: World, origin: Counters, receipts: seq<Receipt>, now: Counters) {
    && now.global == origin.global + |receipts|
    && (forall a :: SeqOf(now.recv, a) == SeqOf(origin.recv, a) + Sum(receipts, Received(a)))
    && (forall a :: SeqOf(now.auth, a) == SeqOf(origin.auth, a) + Sum(receipts, Authorized(a)))
    && (forall a :: SeqOf(now.code, a) == SeqOf(origin.code, a) + Sum(receipts, Made(w, SetCode(a))))
    && (forall a :: SeqOf(now.abi, a) == SeqOf(origin.abi, a) + Sum(receipts, Made(w, SetAbi(a))))
  }

  /** Consecutive global numbers; one receive number per receipt; one authorization number per
      authorization; one code or ABI number per update. */
  ghost predicate Sequenced(w: World, origin: Counters, receipts: seq<Receipt>, now: Counters) {
    && Totals(w, origin, receipts, now)
    && forall i :: 0 <= i < |receipts| ==> Numbered(w, origin, receipts, i)
  }

  /** The receipt and the counters after one more execution. */
  ghost predicate NextReceipt(w: World, before: Counters, r: Receipt, after: Counters) {
    && after.global == before.global + 1 == r.globalSeq
    && (forall a :: SeqOf(after.recv, a) == SeqOf(before.recv, a) + if a == r.receiver then 1 else 0)
    && r.recvSeq == SeqOf(after.recv, r.receiver)
    && (forall a :: SeqOf(after.auth, a) == SeqOf(before.auth, a) + Mult(r.act.auths, a))
    && (forall a <- r.act.auths :: a in r.authSeq && r.authSeq[a] == SeqOf(after.auth, a))
    && CodeCounted(before.code, EffectsOf(w, r), after.code) && AbiCounted(before.abi, EffectsOf(w, r), after.abi)
    && r.codeSeq == Low32(SeqOf(after.code, r.act.account)) && r.abiSeq == Low32(SeqOf(after.abi, r.act.account))
  }

  lemma {:induction false} TotalsAppend(w: World, origin: Counters, receipts: seq<Receipt>, before: Counters, r: Receipt, after: Counters)
    requires Totals(w, origin, receipts, before) && NextReceipt(w, before, r, after)
    ensures Totals(w, origin, receipts + [r], after)
  {
    hide Sum, SeqOf, Mult, Calls, EffectsOf, Low32;
    var all := receipts + [r];
    forall a ensures SeqOf(after.recv, a) == SeqOf(origin.recv, a) + Sum(all, Received(a)) {
      SumAppend(receipts, [r], Received(a));
      SumOne(r, Received(a));
    }
    forall a ensures SeqOf(after.auth, a) == SeqOf(origin.auth, a) + Sum(all, Authorized(a)) {
      SumAppend(receipts, [r], Authorized(a));
      SumOne(r, Authorized(a));
    }
    forall a ensures SeqOf(after.code, a) == SeqOf(origin.code, a) + Sum(all, Made(w, SetCode(a))) {
      MadeAppend(w, receipts, r, SetCode(a));
    }
    forall a ensures SeqOf(after.abi, a) == SeqOf(origin.abi, a) + Sum(all, Made(w, SetAbi(a))) {
      MadeAppend(w, receipts, r, SetAbi(a));
    }
  }

  /** The newest receipt carries the numbers the counters have come to. */
  lemma {:induction false} NewestNumbered(w: World, origin: Counters, receipts: seq<Receipt>, before: Counters, r: Receipt, after: Counters)
    requires Totals(w, origin, receipts + [r], after) && NextReceipt(w, before, r, after)
    ensures Numbered(w, origin, receipts + [r], |receipts|)
  {
    hide Sum, SeqOf, Mult, CodeCounted, AbiCounted, Low32;
    var all, c := receipts + [r], r.act.account;
    assert all[..|receipts| + 1] == all;
    assert SeqOf(after.code, c) == SeqOf(origin.code, c) + Sum(all, Made(w, SetCode(c)));
    assert SeqOf(after.abi, c) == SeqOf(origin.abi, c) + Sum(all, Made(w, SetAbi(c)));
  }

  /** The numbers of earlier receipts do not depend on later ones. */
  lemma {:induction false} StaysNumbered(w: World, origin: Counters, receipts: seq<Receipt>, r: Receipt, i: nat)
    requires i < |receipts| && Numbered(w, origin, receipts, i)
    ensures Numbered(w, origin, receipts + [r], i)
  {
    hide Sum, SeqOf, Updated;
    assert (receipts + [r])[..i + 1] == receipts[..i + 1];
  }

  lemma {:induction false} SequencedAppend(w: World, origin: Counters, receipts: seq<Receipt>, before: Counters, r: Receipt, after: Counters)
    requires Sequenced(w, origin, receipts, before) && NextReceipt(w, before, r, after)
    ensures Sequenced(w, origin, receipts + [r], after)
  {
    hide Totals, NextReceipt, Numbered;
    TotalsAppend(w, origin, receipts, before, r, after);
    NewestNumbered(w, origin, receipts, before, r, after);
    var all := receipts + [r];
    forall i | 0 <= i < |all| ensures Numbered(w, origin, all, i) {
      if i < |receipts| {
        StaysNumbered(w, origin, receipts, r, i);
      }
    }
  }

  lemma {:induction false} NothingExecuted(w: World, origin: Counters)
    ensures Sequenced(w, origin, [], origin)
  {
    hide SeqOf;
  }

  /** The steps of the counters, put together. */
  lemma {:induction false} ReceiptFollows(w: World, before: Counters, r: Receipt, after: Counters)
    requires before.global >= w.first && after.global == before.global + 1 == r.globalSeq
    requires after.recv == before.recv[r.receiver := SeqOf(before.recv, r.receiver) + 1]
    requires r.recvSeq == SeqOf(before.recv, r.receiver) + 1
    requires forall a :: SeqOf(after.auth, a) == SeqOf(before.auth, a) + Mult(r.act.auths, a)
    requires forall a <- r.act.auths :: a in r.authSeq && r.authSeq[a] == SeqOf(after.auth, a)
    requires var es := w.code(r.receiver, r.act, before.global - w.first);
             CodeCounted(before.code, es, after.code) && AbiCounted(before.abi, es, after.abi)
    requires r.codeSeq == Low32(SeqOf(after.code, r.act.account)) && r.abiSeq == Low32(SeqOf(after.abi, r.act.account))
    ensures NextReceipt(w, before, r, after)
  {
    hide CodeCounted, AbiCounted, Mult, Low32;
  }

  lemma {:induction false} MadeAppend(w: World, receipts: seq<Receipt>, r: Receipt, e: Effect)
    ensures Sum(receipts + [r], Made(w, e)) == Sum(receipts, Made(w, e)) + Calls(EffectsOf(w, r), e)
  {
    hide Sum, Calls, EffectsOf;
    SumAppend(receipts, [r], Made(w, e));
    SumOne(r, Made(w, e));
  }

  lemma {:induction false} GlobalCounts(w: World, origin: Counters, receipts: seq<Receipt>, now: Counters)
    requires Sequenced(w, origin, receipts, now)
    ensures now.global == origin.global + |receipts|
  {
  }

  lemma {:induction false} MultAppend(auths: seq<Account>, b: Account, a: Account)
    ensures Mult(auths + [b], a) == Mult(auths, a) + if b == a then 1 else 0
  {
    if auths == [] {
      assert auths + [b] == [b] && [b][1..] == [];
    } else {
      assert (auths + [b])[1..] == auths[1..] + [b];
      MultAppend(auths[1..], b, a);
    }
  }

  /* ---------- RAM and gas ---------- */

  /** Everything recorded for `a` in a trace and below it. */
  function TotalDelta(t: Trace, a: Account): int {
    RamOf(t.ramDeltas, a) + TotalDeltas(t.inlines, a)
  }

  function TotalDeltas(ts: seq<Trace>, a: Account): int {
    if ts == [] then 0 else TotalDelta(ts[0], a) + TotalDeltas(ts[1..], a)
  }

  lemma {:induction false} TotalAppend(ts: seq<Trace>, t: Trace, a: Account)
    ensures TotalDeltas(ts + [t], a) == TotalDeltas(ts, a) + TotalDelta(t, a)
  {
    hide TotalDelta;
    if ts == [] {
      assert ts + [t] == [t] && [t][1..] == [];
    } else {
      assert (ts + [t])[1..] == ts[1..] + [t];
      TotalAppend(ts[1..], t, a);
    }
  }

  lemma {:induction false} TotalConcat(ts: seq<Trace>, us: seq<Trace>, a: Account)
    ensures TotalDeltas(ts + us, a) == TotalDeltas(ts, a) + TotalDeltas(us, a)
  {
    hide TotalDelta;
    if ts == [] {
      assert ts + us == us;
    } else {
      assert (ts + us)[1..] == ts[1..] + us;
      TotalConcat(ts[1..], us, a);
    }
  }

  /** The receipts of a trace tree in the order of execution. */
  function Receipts(t: Trace): seq<Receipt> {
    [t.receipt] + ReceiptsOf(t.inlines)
  }

  function ReceiptsOf(ts: seq<Trace>): seq<Receipt> {
    if ts == [] then [] else Receipts(ts[0]) + ReceiptsOf(ts[1..])
  }

  lemma {:induction false} ReceiptsAppend(ts: seq<Trace>, t: Trace)
    ensures ReceiptsOf(ts + [t]) == ReceiptsOf(ts) + Receipts(t)
  {
    hide Receipts;
    if ts == [] {
      assert ts + [t] == [t] && [t][1..] == [];
      assert ReceiptsOf([t]) == Receipts(t) + [];
    } else {
      assert (ts + [t])[1..] == ts[1..] + [t];
      ReceiptsAppend(ts[1..], t);
    }
  }

  lemma {:induction false} ReceiptsConcat(ts: seq<Trace>, us: seq<Trace>)
    ensures ReceiptsOf(ts + us) == ReceiptsOf(ts) + ReceiptsOf(us)
  {
    hide Receipts;
    if ts == [] {
      assert ts + us == us;
    } else {
      assert (ts + us)[1..] == ts[1..] + us;
      ReceiptsConcat(ts[1..], us);
    }
  }

  /** Whether an authorization by `actor` makes the action cost the fixed fee. */
  predicate Chargeable(kind: Kind, actor: Account) {
    match kind
    case Transfer(to) => to != GAS_ACCOUNT && actor != GAS_ACCOUNT
    case NewAccount(created) => created != GAS_ACCOUNT
    case Other(_) => false
  }

  /** What the gas entry of an account should hold. */
  ghost predicate GasMatches(t: Trace, activated: bool) {
    if activated then
      forall a :: RamOf(t.gas, a) == RamOf(t.ramDeltas, a) +
        if Chargeable(t.receipt.act.kind, a) then FIXED_FEE * Mult(t.receipt.act.auths, a) else 0
    else t.gas == map[]
  }

  lemma {:induction false} MultCounts(auths: seq<Account>, a: Account)
    ensures Mult(auths, a) == multiset(auths)[a]
  {
    if auths != [] {
      MultCounts(auths[1..], a);
      assert auths == [auths[0]] + auths[1..];
    }
  }

  /** What is charged in gas beyond the RAM used: a hundred for each authorization of a transfer that neither
      goes to nor is authorized by the gas account, and of the creation of any account but that one. */
  lemma {:induction false} FeeInNumbers(t: Trace, a: Account)
    requires GasMatches(t, true)
    ensures var n := multiset(t.receipt.act.auths)[a];
            RamOf(t.gas, a) - RamOf(t.ramDeltas, a) ==
              match t.receipt.act.kind
              case Transfer(to) => if to == 1 || a == 1 then 0 else 100 * n
              case NewAccount(created) => if created == 1 then 0 else 100 * n
              case Other(_) => 0
  {
    MultCounts(t.receipt.act.auths, a);
  }

  /** The gas entries match in the whole tree, and no context is deeper than the limit. */
  ghost predicate Proper(t: Trace, activated: bool, limit: nat) {
    && GasMatches(t, activated)
    && t.depth <= limit
    && forall i :: 0 <= i < |t.inlines| ==> Proper(t.inlines[i], activated, limit)
  }

  /** The first `n` accounts of the queue have executed the action, in queue order. */
  ghost predicate InOrder(head: Trace, inlines: seq<Trace>, act: Action, queue: seq<Account>, n: nat) {
    && 1 <= n <= |queue| && n - 1 <= |inlines|
    && head.receipt.receiver == queue[0] && head.receipt.act == act
    && forall k :: 0 <= k < n - 1 ==> inlines[k].receipt.receiver == queue[k + 1] && inlines[k].receipt.act == act
  }

  lemma {:induction false} InOrderGrows(head: Trace, inlines: seq<Trace>, act: Action, queue: seq<Account>, n: nat, t: Trace, queue': seq<Account>)
    requires InOrder(head, inlines, act, queue, n) && queue <= queue'
    ensures InOrder(head, inlines + [t], act, queue', n)
    ensures |inlines| == n - 1 && n < |queue'| && t.receipt.receiver == queue'[n] && t.receipt.act == act ==>
              InOrder(head, inlines + [t], act, queue', n + 1)
  {
  }

  lemma {:induction false} FirstInOrder(head: Trace, act: Action, queue: seq<Account>)
    requires queue != [] && head.receipt.receiver == queue[0] && head.receipt.act == act
    ensures InOrder(head, [], act, queue, 1)
  {
  }

  lemma {:induction false} MoreInOrder(head: Trace, ran: seq<Trace>, act: Action, queue: seq<Account>, more: seq<Trace>)
    requires InOrder(head, ran, act, queue, |queue|)
    ensures InOrder(head.(inlines := ran + more), ran + more, act, queue, |queue|)
  {
  }

  lemma {:induction false} HeadAct(head: Trace, inlines: seq<Trace>, act: Action, queue: seq<Account>)
    requires InOrder(head, inlines, act, queue, |queue|)
    ensures head.receipt.act == act
  {
  }

  lemma NoEntries()
    ensures forall a :: RamOf(map[], a) == 0
  {
  }

  /** Hanging finished traces below their head. */
  lemma {:induction false} Assemble(head: Trace, traces: seq<Trace>, activated: bool, limit: nat, a: Account)
    requires Proper(head, activated, limit)
    requires forall i :: 0 <= i < |traces| ==> Proper(traces[i], activated, limit)
    ensures Proper(head.(inlines := traces), activated, limit)
    ensures TotalDelta(head.(inlines := traces), a) == RamOf(head.ramDeltas, a) + TotalDeltas(traces, a)
    ensures Receipts(head.(inlines := traces)) == [head.receipt] + ReceiptsOf(traces)
  {
  }

  lemma {:induction false} CallsNext(es: seq<Effect>, i: nat, e: Effect)
    requires i < |es|
    ensures Calls(es[..i + 1], e) == Calls(es[..i], e) + if es[i] == e then 1 else 0
  {
    assert es[..i + 1][..i] == es[..i];
  }

  lemma {:induction false} NothingCalled(code: map<Account, nat>, abi: map<Account, nat>, es: seq<Effect>)
    ensures CodeCounted(code, es[..0], code) && AbiCounted(abi, es[..0], abi)
  {
  }

  lemma {:induction false} UpdatesNext(code: map<Account, nat>, abi: map<Account, nat>, es: seq<Effect>, i: nat,
                                       codeBefore: map<Account, nat>, abiBefore: map<Account, nat>,
                                       codeAfter: map<Account, nat>, abiAfter: map<Account, nat>)
    requires i < |es| && CodeCounted(code, es[..i], codeBefore) && AbiCounted(abi, es[..i], abiBefore)
    requires forall a :: SeqOf(codeAfter, a) == SeqOf(codeBefore, a) + if es[i] == SetCode(a) then 1 else 0
    requires forall a :: SeqOf(abiAfter, a) == SeqOf(abiBefore, a) + if es[i] == SetAbi(a) then 1 else 0
    ensures CodeCounted(code, es[..i + 1], codeAfter) && AbiCounted(abi, es[..i + 1], abiAfter)
  {
    hide Calls, SeqOf;
    forall a ensures SeqOf(codeAfter, a) == SeqOf(code, a) + Calls(es[..i + 1], SetCode(a)) {
      CallsNext(es, i, SetCode(a));
    }
    forall a ensures SeqOf(abiAfter, a) == SeqOf(abi, a) + Calls(es[..i + 1], SetAbi(a)) {
      CallsNext(es, i, SetAbi(a));
    }
  }

  /** The existing accounts, their code, and the global number before the first receipt. */
  datatype World = World(accounts: set<Account>, code: (Account, Action, nat) -> seq<Effect>, first: nat)

  /** What the code did in the execution a receipt stands for. */
  function EffectsOf(w: World, r: Receipt): seq<Effect> {
    w.code(r.receiver, r.act, if r.globalSeq > w.first then r.globalSeq - w.first - 1 else 0)
  }

  datatype Progress = Progress(pending: Pending, deltas: seq<map<Account, int>>)

  /** What a context has queued after some executions, and the RAM entries of each. */
  function Queued(w: World, account: Account, runs: seq<Receipt>): Option<Progress> {
    if runs == [] then Some(Progress(Pending([account], [], [], map[]), []))
    else
      var n := |runs| - 1;
      var p :- Queued(w, account, runs[..n]);
      var q :- ApplyAll(w.accounts, p.pending, EffectsOf(w, runs[n]));
      Some(Progress(q.(ramDeltas := map[]), p.deltas + [q.ramDeltas]))
  }

  lemma {:induction false} QueuedNext(w: World, account: Account, runs: seq<Receipt>, r: Receipt, p: Progress, q: Pending)
    requires Queued(w, account, runs) == Some(p) && ApplyAll(w.accounts, p.pending, EffectsOf(w, r)) == Some(q)
    ensures Queued(w, account, runs + [r]) == Some(Progress(q.(ramDeltas := map[]), p.deltas + [q.ramDeltas]))
  {
    assert (runs + [r])[..|runs|] == runs;
  }

  /* ---------- which action trees succeed ---------- */

  /** One execution, the n-th: the receiver, the account of the action and all authorizing accounts exist
      and no call is refused. */
  function RunOne(w: World, act: Action, p: Pending, receiver: Account, n: nat): Option<Pending> {
    if receiver in w.accounts && act.account in w.accounts && forall a <- act.auths :: a in w.accounts then
      var q :- ApplyAll(w.accounts, p, w.code(receiver, act, n));
      Some(q.(ramDeltas := map[]))
    else None
  }

  /** The rest of the queue, from position `i`: what it leaves queued and how many executions there
      are then. No more accounts than exist can be in the queue. */
  function RunQueue(w: World, act: Action, p: Pending, i: nat, n: nat): Option<(Pending, nat)>
    decreases |w.accounts| - i
  {
    if i >= |p.notified| then Some((p, n))
    else if i >= |w.accounts| then None
    else
      var q :- RunOne(w, act, p, p.notified[i], n);
      RunQueue(w, act, q, i + 1, n + 1)
  }

  /** An action with everything it causes. */
  function RunTree(w: World, limit: nat, act: Action, depth: nat, n: nat): Option<nat>
    decreases limit - depth, 1, 0
  {
    var (p, m) :- RunQueue(w, act, Pending([act.account], [], [], map[]), 0, n);
    if p.contextFree + p.inlines == [] then Some(m)
    else if depth >= limit then None
    else RunAll(w, limit, p.contextFree + p.inlines, depth + 1, m)
  }

  function RunAll(w: World, limit: nat, acts: seq<Action>, depth: nat, n: nat): Option<nat>
    decreases limit - depth, 2, |acts|
  {
    if acts == [] then Some(n)
    else
      var m :- RunTree(w, limit, acts[0], depth, n);
      RunAll(w, limit, acts[1..], depth, m)
  }

  function Heads(ts: seq<Trace>): (rs: seq<Receipt>)
    ensures |rs| == |ts| && forall i :: 0 <= i < |ts| ==> rs[i] == ts[i].receipt
  {
    seq(|ts|, i requires 0 <= i < |ts| => ts[i].receipt)
  }

  function OwnDeltas(ts: seq<Trace>): (ds: seq<map<Account, int>>)
    ensures |ds| == |ts| && forall i :: 0 <= i < |ts| ==> ds[i] == ts[i].ramDeltas
  {
    seq(|ts|, i requires 0 <= i < |ts| => ts[i].ramDeltas)
  }

  function Acts(ts: seq<Trace>): (acts: seq<Action>)
    ensures |acts| == |ts| && forall i :: 0 <= i < |ts| ==> acts[i] == ts[i].receipt.act
  {
    seq(|ts|, i requires 0 <= i < |ts| => ts[i].receipt.act)
  }

  /* ---------- what a run is, told from the calls of the code alone ---------- */

  /** All calls made in some executions, in order. */
  function AllEffects(w: World, runs: seq<Receipt>): seq<Effect> {
    if runs == [] then [] else AllEffects(w, runs[..|runs| - 1]) + EffectsOf(w, runs[|runs| - 1])
  }

  /** The RAM entries of an execution are what its code asked for. */
  ghost predicate Recorded(w: World, r: Receipt, deltas: map<Account, int>) {
    forall a :: RamOf(deltas, a) == Sum(EffectsOf(w, r), DeltaFor(a))
  }

  /** The receipts are those of the accounts in the queue, each once and in its order, for one action. */
  ghost predicate RunsOf(runs: seq<Receipt>, queue: seq<Account>, act: Action) {
    && |runs| == |queue|
    && (forall k :: 0 <= k < |queue| ==> runs[k].receiver == queue[k] && runs[k].act == act)
    && (forall i, j :: 0 <= i < j < |queue| ==> queue[i] != queue[j])
  }

  /** Whoever runs after the first was asked for by an execution before it. */
  ghost predicate Caused(w: World, runs: seq<Receipt>) {
    forall i :: 0 < i < |runs| ==> runs[i].receiver in RecipientsOf(AllEffects(w, runs[..i]))
  }

  /** The context ran for the head and for the first `n` traces below it: these are exactly the account of the
      action and the accounts the code asked to notify, each once and in the order first asked for, with the
      RAM entries the code asked for; the traces after them are for exactly the actions the code sent, in
      order, the context-free ones first; and no call was one that is refused. */
  ghost predicate RanFor(w: World, head: Trace, below: seq<Trace>, n: nat) {
    && n <= |below|
    && var runs, act := [head.receipt] + Heads(below[..n]), head.receipt.act;
    && var es := AllEffects(w, runs);
    && AllAllowed(w.accounts, es) && Caused(w, runs)
    && RunsOf(runs, FirstOnly([act.account] + RecipientsOf(es)), act)
    && Acts(below[n..]) == ContextFreeOf(es) + InlinesOf(es)
    && Recorded(w, head.receipt, head.ramDeltas)
    && forall i :: 0 <= i < n ==> Recorded(w, below[i].receipt, below[i].ramDeltas) && below[i].inlines == []
  }

  /** Everyone who takes part exists, and the executions are numbered from `n` on. */
  ghost predicate Present(w: World, head: Trace, below: seq<Trace>, k: nat, n: nat) {
    && k <= |below| && head.receipt.act.account in w.accounts
    && (forall a <- head.receipt.act.auths :: a in w.accounts)
    && head.receipt.receiver in w.accounts && head.receipt.globalSeq == w.first + n + 1
    && forall i :: 0 <= i < k ==>
         below[i].receipt.receiver in w.accounts && below[i].receipt.globalSeq == w.first + n + 2 + i
  }

  /** A trace whose first execution is the n-th: everything in the tree happened because the code asked for it,
      and everything it asked for happened, within the limit of nested actions. */
  ghost predicate Legal(w: World, limit: nat, t: Trace, depth: nat, n: nat) {
    exists k: nat :: LegalWith(w, limit, t, depth, n, k)
  }

  ghost predicate LegalWith(w: World, limit: nat, t: Trace, depth: nat, n: nat, k: nat) {
    && RanFor(w, t, t.inlines, k) && Present(w, t, t.inlines, k, n)
    && (k < |t.inlines| ==> depth < limit)
    && forall i :: k <= i < |t.inlines| ==>
         Legal(w, limit, t.inlines[i], depth + 1, n + 1 + |ReceiptsOf(t.inlines[..i])|)
  }

  lemma {:induction false} LegalBy(w: World, limit: nat, t: Trace, depth: nat, n: nat, k: nat)
    requires LegalWith(w, limit, t, depth, n, k)
    ensures Legal(w, limit, t, depth, n)
  {
  }

  lemma {:induction false} SingleReceipts(ts: seq<Trace>)
    requires forall i :: 0 <= i < |ts| ==> ts[i].inlines == []
    ensures |ReceiptsOf(ts)| == |ts|
  {
    if ts != [] {
      SingleReceipts(ts[1..]);
      assert Receipts(ts[0]) == [ts[0].receipt] + [];
    }
  }

  /** Traces one after the other, the first execution being the n-th. */
  ghost predicate AllLegal(w: World, limit: nat, ts: seq<Trace>, depth: nat, n: nat) {
    forall k :: 0 <= k < |ts| ==> Legal(w, limit, ts[k], depth, n + |ReceiptsOf(ts[..k])|)
  }

  lemma {:induction false} NothingYet(w: World, limit: nat, depth: nat, n: nat)
    ensures AllLegal(w, limit, [], depth, n)
  {
  }

  lemma {:induction false} AllLegalNext(w: World, limit: nat, ts: seq<Trace>, t: Trace, depth: nat, n: nat)
    requires AllLegal(w, limit, ts, depth, n) && Legal(w, limit, t, depth, n + |ReceiptsOf(ts)|)
    ensures AllLegal(w, limit, ts + [t], depth, n)
  {
    hide Legal, ReceiptsOf;
    var all := ts + [t];
    forall k | 0 <= k < |all| ensures Legal(w, limit, all[k], depth, n + |ReceiptsOf(all[..k])|) {
      if k < |ts| {
        assert all[..k] == ts[..k];
      } else {
        assert all[..k] == ts;
      }
    }
  }

  lemma {:induction false} InOrderRuns(head: Trace, ran: seq<Trace>, act: Action, queue: seq<Account>)
    requires |queue| == |ran| + 1 && InOrder(head, ran, act, queue, |queue|)
    requires forall i, j :: 0 <= i < j < |queue| ==> queue[i] != queue[j]
    ensures RunsOf([head.receipt] + Heads(ran), queue, act)
  {
  }

  /** The executions of a context, told from the calls of its code alone. */
  lemma {:induction false} Explain(w: World, head: Trace, ran: seq<Trace>, more: seq<Trace>, act: Action, p: Pending)
    requires Queued(w, act.account, [head.receipt] + Heads(ran)) == Some(Progress(p, [head.ramDeltas] + OwnDeltas(ran)))
    requires head.receipt.act == act && RunsOf([head.receipt] + Heads(ran), p.notified, act)
    requires Caused(w, [head.receipt] + Heads(ran)) && Acts(more) == p.contextFree + p.inlines
    requires forall k :: 0 <= k < |ran| ==> ran[k].inlines == []
    ensures RanFor(w, head.(inlines := ran + more), ran + more, |ran|)
  {
    hide Queued, AllEffects, RecipientsOf, FirstOnly, ContextFreeOf, InlinesOf, Recorded, Caused, Allowed, RunsOf, AllAllowed;
    var all, runs := ran + more, [head.receipt] + Heads(ran);
    assert all[..|ran|] == ran && all[|ran|..] == more;
    QueuedExactly(w, act.account, runs);
    var deltas := [head.ramDeltas] + OwnDeltas(ran);
    assert Recorded(w, runs[0], deltas[0]);
    forall k | 0 <= k < |ran| ensures Recorded(w, all[k].receipt, all[k].ramDeltas) && all[k].inlines == [] {
      assert Recorded(w, runs[k + 1], deltas[k + 1]);
    }
  }

  lemma {:induction false} NothingGathered(account: Account)
    ensures Gathered(Pending([account], [], [], map[]), [account] + RecipientsOf([]), [], map[], [])
  {
    assert [account] + [] == [account] && [account][1..] == [];
  }

  lemma {:induction false} NextExecution(q: Pending, asked: seq<Account>, es: seq<Effect>, own: seq<Effect>)
    requires Gathered(q, asked, es, map[], own)
    ensures Gathered(q.(ramDeltas := map[]), asked, es, map[], [])
    ensures forall a :: RamOf(q.ramDeltas, a) == Sum(own, DeltaFor(a))
  {
    hide FirstOnly, ContextFreeOf, InlinesOf;
  }

  /** What a context has queued after some executions, from their calls alone. */
  lemma {:induction false} QueuedExactly(w: World, account: Account, runs: seq<Receipt>)
    ensures var g, es := Queued(w, account, runs), AllEffects(w, runs);
            && (g.Some? <==> AllAllowed(w.accounts, es))
            && (g.Some? ==>
                && Gathered(g.value.pending, [account] + RecipientsOf(es), es, map[], [])
                && |g.value.deltas| == |runs|
                && forall i :: 0 <= i < |runs| ==> Recorded(w, runs[i], g.value.deltas[i]))
    decreases |runs|
  {
    hide Gathered, ApplyAll, EffectsOf, RecipientsOf, Sum, RamOf;
    if runs == [] {
      NothingGathered(account);
    } else {
      var n := |runs| - 1;
      var before, own := AllEffects(w, runs[..n]), EffectsOf(w, runs[n]);
      QueuedExactly(w, account, runs[..n]);
      AllowedParts(w.accounts, before, own);
      if AllAllowed(w.accounts, before) {
        var p := Queued(w, account, runs[..n]).value;
        ApplyAllExactly(w.accounts, p.pending, [account] + RecipientsOf(before), before, map[], [], own);
        if AllAllowed(w.accounts, own) {
          var q := ApplyAll(w.accounts, p.pending, own).value;
          RecipientsAppend(before, own);
          assert [account] + RecipientsOf(before) + RecipientsOf(own) == [account] + RecipientsOf(before + own);
          assert [] + own == own;
          NextExecution(q, [account] + RecipientsOf(before + own), before + own, own);
        }
      }
    }
  }

  /** Whoever is in the queue after the first was asked for. */
  lemma {:induction false} AskedFor(w: World, account: Account, runs: seq<Receipt>, i: nat)
    requires Queued(w, account, runs).Some?
    requires var queue := Queued(w, account, runs).value.pending.notified;
             0 < i < |queue| && forall j :: 0 <= j < i ==> queue[j] != queue[i]
    ensures Queued(w, account, runs).value.pending.notified[i] in RecipientsOf(AllEffects(w, runs))
  {
    hide Queued, AllEffects, RecipientsOf, AllAllowed;
    QueuedExactly(w, account, runs);
    var queue, asked := Queued(w, account, runs).value.pending.notified, [account] + RecipientsOf(AllEffects(w, runs));
    FirstOnlyMembers(asked, queue[i]);
    assert queue[0] == asked[0] == account;
  }

  lemma {:induction false} CausedNext(w: World, runs: seq<Receipt>, r: Receipt)
    requires Caused(w, runs) && (runs != [] ==> r.receiver in RecipientsOf(AllEffects(w, runs)))
    ensures Caused(w, runs + [r])
  {
    hide AllEffects, RecipientsOf;
    var all := runs + [r];
    forall i | 0 < i < |all| ensures all[i].receiver in RecipientsOf(AllEffects(w, all[..i])) {
      if i < |runs| {
        assert all[..i] == runs[..i];
      } else {
        assert all[..i] == runs;
      }
    }
  }

  lemma {:induction false} RunsNext(w: World, head: Trace, below: seq<Trace>, t: Trace, n: nat)
    requires Present(w, head, below, |below|, n) && t.receipt.receiver in w.accounts
    requires t.receipt.globalSeq == w.first + n + 2 + |below|
    requires Caused(w, [head.receipt] + Heads(below))
    requires t.receipt.receiver in RecipientsOf(AllEffects(w, [head.receipt] + Heads(below)))
    ensures Present(w, head, below + [t], |below| + 1, n) && Caused(w, [head.receipt] + Heads(below + [t]))
  {
    hide Caused, AllEffects, RecipientsOf;
    var runs := [head.receipt] + Heads(below);
    CausedNext(w, runs, t.receipt);
    assert runs + [t.receipt] == [head.receipt] + Heads(below + [t]);
  }

  lemma {:induction false} AllowedParts(accounts: set<Account>, a: seq<Effect>, b: seq<Effect>)
    ensures AllAllowed(accounts, a + b) <==> AllAllowed(accounts, a) && AllAllowed(accounts, b)
  {
    hide Allowed;
    assert forall e <- a :: e in a + b;
    assert forall e <- b :: e in a + b;
  }

  /* ---------- the transaction and one action context ---------- */

  class Transaction {
    const accounts: set<Account>
    const maxInlineDepth: nat
    const activated: bool
    /** What the code of an account does when handed an action as the n-th execution. */
    const code: (Account, Action, nat) -> seq<Effect>

    var globalSeq: nat
    var recvSeq: map<Account, nat>
    var authSeq: map<Account, nat>
    var codeSeq: map<Account, nat>
    var abiSeq: map<Account, nat>
    var executed: seq<Receipt>
    var ram: map<Account, int>
    ghost const origin: Counters

    constructor (accounts: set<Account>, maxInlineDepth: nat, activated: bool,
                 code: (Account, Action, nat) -> seq<Effect>, start: Counters)
      ensures Valid() && origin == start && executed == [] && ram == map[]
      ensures this.accounts == accounts && this.maxInlineDepth == maxInlineDepth
      ensures this.activated == activated && this.code == code
    {
      this.accounts, this.maxInlineDepth, this.activated, this.code := accounts, maxInlineDepth, activated, code;
      globalSeq, recvSeq, authSeq := start.global, start.recv, start.auth;
      codeSeq, abiSeq := start.code, start.abi;
      executed, ram := [], map[];
      origin := start;
      NothingExecuted(World(accounts, code, start.global), start);
    }

    function Now(): Counters
      reads this
    {
      Counters(globalSeq, recvSeq, authSeq, codeSeq, abiSeq)
    }

    ghost predicate Valid()
      reads this
    {
      Sequenced(Around(), origin, executed, Now())
    }

    ghost function Around(): World {
      World(accounts, code, origin.global)
    }

    /** `next_auth_sequence` for every authorization, in order. */
    method NextAuthSequences(auths: seq<Account>) returns (r: Option<map<Account, nat>>)
      modifies this`authSeq
      ensures r.Some? <==> forall a <- auths :: a in accounts
      ensures r.Some? ==> forall a :: SeqOf(authSeq, a) == SeqOf(old(authSeq), a) + Mult(auths, a)
      ensures r.Some? ==> forall a <- auths :: a in r.value && r.value[a] == SeqOf(authSeq, a)
    {
      var numbers: map<Account, nat> := map[];
      for j := 0 to |auths|
        invariant forall k :: 0 <= k < j ==> auths[k] in accounts
        invariant forall a :: SeqOf(authSeq, a) == SeqOf(old(authSeq), a) + Mult(auths[..j], a)
        invariant forall k :: 0 <= k < j ==> auths[k] in numbers && numbers[auths[k]] == SeqOf(authSeq, auths[k])
      {
        var actor := auths[j];
        if actor !in accounts {
          return None;
        }
        authSeq := authSeq[actor := SeqOf(authSeq, actor) + 1];
        numbers := numbers[actor := authSeq[actor]];
        forall a ensures Mult(auths[..j + 1], a) == Mult(auths[..j], a) + if actor == a then 1 else 0 {
          assert auths[..j + 1] == auths[..j] + [actor];
          MultAppend(auths[..j], actor, a);
        }
      }
      assert auths[..|auths|] == auths;
      return Some(numbers);
    }

    /** The execution has made its code and ABI updates, and nothing else is recorded of it yet. */
    ghost predicate Executing(before: Counters, effects: seq<Effect>)
      reads this
    {
      && globalSeq == before.global && recvSeq == before.recv && authSeq == before.auth
      && CodeCounted(before.code, effects, codeSeq) && AbiCounted(before.abi, effects, abiSeq)
    }

    /** The counters step, and the receipt holds their numbers. */
    method Step(receiver: Account, act: Action, ghost before: Counters) returns (r: Option<Receipt>)
      requires globalSeq >= origin.global && Executing(before, code(receiver, act, globalSeq - origin.global))
      modifies this`globalSeq, this`recvSeq, this`authSeq
      ensures r.Some? <==> act.account in accounts && forall a <- act.auths :: a in accounts
      ensures r.Some? ==> NextReceipt(Around(), before, r.value, Now())
      ensures r.Some? ==> r.value.receiver == receiver && r.value.act == act && r.value.globalSeq == old(globalSeq) + 1
    {
      hide CodeCounted, AbiCounted, Low32, Mult, SeqOf, NextReceipt;
      globalSeq := globalSeq + 1;
      recvSeq := recvSeq[receiver := SeqOf(recvSeq, receiver) + 1];
      if act.account !in accounts {
        return None;
      }
      var codeNumber, abiNumber := Low32(SeqOf(codeSeq, act.account)), Low32(SeqOf(abiSeq, act.account));
      var numbers := NextAuthSequences(act.auths);
      if numbers.None? {
        return None;
      }
      var receipt := Receipt(receiver, act, globalSeq, recvSeq[receiver], numbers.value, codeNumber, abiNumber);
      ReceiptFollows(Around(), before, receipt, Now());
      return Some(receipt);
    }

    /** The receipt of an execution is appended. */
    method Record(receiver: Account, act: Action, ghost before: Counters) returns (r: Option<Receipt>)
      requires Sequenced(Around(), origin, executed, before)
      requires Executing(before, code(receiver, act, |executed|))
      modifies this`globalSeq, this`recvSeq, this`authSeq, this`executed
      ensures r.Some? <==> act.account in accounts && forall a <- act.auths :: a in accounts
      ensures r.Some? ==> Valid() && executed == old(executed) + [r.value]
      ensures r.Some? ==> r.value.receiver == receiver && r.value.act == act
      ensures r.Some? ==> r.value.globalSeq == origin.global + |old(executed)| + 1
    {
      GlobalCounts(Around(), origin, executed, before);
      hide Sequenced, NextReceipt, CodeCounted, AbiCounted;
      r := Step(receiver, act, before);
      if r.Some? {
        SequencedAppend(Around(), origin, executed, before, r.value, Now());
        executed := executed + [r.value];
      }
    }

    method AddRam(a: Account, delta: int)
      modifies this`ram
      ensures ram == Bump(old(ram), a, delta)
    {
      ram := Bump(ram, a, delta);
    }
  }

  /** `apply_context`: one action, the queue of accounts to notify, and what their code queued. */
  class ActionContext {
    const tx: Transaction
    const act: Action
    const depth: nat
    var receiver: Account
    var notified: seq<Account>
    var inlineActions: seq<Action>
    var contextFreeActions: seq<Action>
    var ramDeltas: map<Account, int>
    var gas: map<Account, int>

    constructor (tx: Transaction, act: Action, depth: nat)
      ensures this.tx == tx && this.act == act && this.depth == depth && receiver == act.account
      ensures notified == [] && inlineActions == [] && contextFreeActions == [] && ramDeltas == map[] && gas == map[]
    {
      this.tx, this.act, this.depth := tx, act, depth;
      receiver, notified, inlineActions, contextFreeActions := act.account, [], [], [];
      ramDeltas, gas := map[], map[];
    }

    function Queue(): Pending
      reads this
    {
      Pending(notified, contextFreeActions, inlineActions, ramDeltas)
    }

    /** Nobody is in the queue twice. */
    ghost predicate QueueDistinct()
      reads this
    {
      forall i, j :: 0 <= i < j < |notified| ==> notified[i] != notified[j]
    }

    method RequireRecipient(recipient: Account)
      requires QueueDistinct()
      modifies this`notified
      ensures QueueDistinct()
      ensures notified == if recipient in old(notified) then old(notified) else old(notified) + [recipient]
    {
      for i := 0 to |notified|
        invariant recipient !in notified[..i] && notified == old(notified)
      {
        if notified[i] == recipient {
          return;
        }
      }
      notified := notified + [recipient];
    }

    method AddRamUsage(account: Account, delta: int)
      modifies this`ramDeltas, this`gas, tx`ram
      ensures tx.ram == Bump(old(tx.ram), account, delta)
      ensures ramDeltas == Bump(old(ramDeltas), account, delta)
      ensures gas == if tx.activated then Bump(old(gas), account, delta) else old(gas)
      ensures old(GasMirrors()) ==> GasMirrors()
    {
      tx.AddRam(account, delta);
      ramDeltas := Bump(ramDeltas, account, delta);
      if tx.activated {
        gas := Bump(gas, account, delta);
        forall a ensures old(GasMirrors()) ==> RamOf(gas, a) == RamOf(ramDeltas, a) {
          BumpAt(old(gas), account, delta, a);
          BumpAt(old(ramDeltas), account, delta, a);
        }
      }
    }

    /** Before `finalize_trace`, the gas entries mirror the RAM entries. */
    ghost predicate GasMirrors()
      reads this
    {
      if tx.activated then forall a :: RamOf(gas, a) == RamOf(ramDeltas, a) else gas == map[]
    }

    /** Running the receiver's code: each call it makes, until the end or a failure. */
    method RunCode(effects: seq<Effect>) returns (ok: bool)
      requires QueueDistinct() && GasMirrors()
      modifies this`notified, this`inlineActions, this`contextFreeActions, this`ramDeltas, this`gas, tx`ram, tx`codeSeq, tx`abiSeq
      ensures QueueDistinct() && GasMirrors()
      ensures old(notified) <= notified
      ensures ok <==> ApplyAll(tx.accounts, old(Queue()), effects).Some?
      ensures ok ==> ApplyAll(tx.accounts, old(Queue()), effects) == Some(Queue())
      ensures ok ==> CodeCounted(old(tx.codeSeq), effects, tx.codeSeq) && AbiCounted(old(tx.abiSeq), effects, tx.abiSeq)
      ensures forall a :: RamOf(tx.ram, a) - RamOf(ramDeltas, a) == RamOf(old(tx.ram), a) - RamOf(old(ramDeltas), a)
    {
      NothingCalled(tx.codeSeq, tx.abiSeq, effects);
      hide ApplyAll, CodeCounted, AbiCounted;
      ghost var start := Queue();
      NothingApplied(tx.accounts, start, effects);
      for i := 0 to |effects|
        invariant QueueDistinct() && GasMirrors()
        invariant old(notified) <= notified
        invariant ApplyAll(tx.accounts, start, effects[..i]) == Some(Queue())
        invariant CodeCounted(old(tx.codeSeq), effects[..i], tx.codeSeq) && AbiCounted(old(tx.abiSeq), effects[..i], tx.abiSeq)
        invariant forall a :: RamOf(tx.ram, a) - RamOf(ramDeltas, a) == RamOf(old(tx.ram), a) - RamOf(old(ramDeltas), a)
      {
        ApplyNext(tx.accounts, start, effects, i);
        ghost var codeBefore, abiBefore := tx.codeSeq, tx.abiSeq;
        ok := Call(effects[i]);
        if !ok {
          RefusedOnce(tx.accounts, start, effects, i + 1);
          return false;
        }
        UpdatesNext(old(tx.codeSeq), old(tx.abiSeq), effects, i, codeBefore, abiBefore, tx.codeSeq, tx.abiSeq);
      }
      assert effects[..|effects|] == effects;
      return true;
    }

    method Call(e: Effect) returns (ok: bool)
      requires QueueDistinct() && GasMirrors()
      modifies this`notified, this`inlineActions, this`contextFreeActions, this`ramDeltas, this`gas, tx`ram, tx`codeSeq, tx`abiSeq
      ensures QueueDistinct() && GasMirrors()
      ensures old(notified) <= notified
      ensures ok <==> Apply(tx.accounts, old(Queue()), e).Some?
      ensures ok ==> Apply(tx.accounts, old(Queue()), e) == Some(Queue())
      ensures ok ==> forall a :: SeqOf(tx.codeSeq, a) == SeqOf(old(tx.codeSeq), a) + if e == SetCode(a) then 1 else 0
      ensures ok ==> forall a :: SeqOf(tx.abiSeq, a) == SeqOf(old(tx.abiSeq), a) + if e == SetAbi(a) then 1 else 0
      ensures forall a :: RamOf(tx.ram, a) - RamOf(ramDeltas, a) == RamOf(old(tx.ram), a) - RamOf(old(ramDeltas), a)
    {
      match e
      case RequireRecipient(recipient) =>
        RequireRecipient(recipient);
        return true;
      case SendInline(a, approved) =>
        if a.account !in tx.accounts || !approved || exists actor <- a.auths :: actor !in tx.accounts {
          return false;
        }
        inlineActions := inlineActions + [a];
        return true;
      case SendContextFree(a) =>
        if a.account !in tx.accounts || a.auths != [] {
          return false;
        }
        contextFreeActions := contextFreeActions + [a];
        return true;
      case AddRamUsage(account, delta) =>
        AddRamUsage(account, delta);
        return true;
      case SetCode(account) =>
        if account !in tx.accounts {
          return false;
        }
        tx.codeSeq := tx.codeSeq[account := SeqOf(tx.codeSeq, account) + 1];
        return true;
      case SetAbi(account) =>
        if account !in tx.accounts {
          return false;
        }
        tx.abiSeq := tx.abiSeq[account := SeqOf(tx.abiSeq, account) + 1];
        return true;
      case Fail =>
        return false;
    }

    /** The fixed fee of `finalize_trace`, once per authorization that bears it. */
    method AddFees(entries: map<Account, int>) returns (r: map<Account, int>)
      ensures forall a :: RamOf(r, a) == RamOf(entries, a) +
                if Chargeable(act.kind, a) then FIXED_FEE * Mult(act.auths, a) else 0
    {
      r := entries;
      for j := 0 to |act.auths|
        invariant forall a :: RamOf(r, a) == RamOf(entries, a) +
                    if Chargeable(act.kind, a) then FIXED_FEE * Mult(act.auths[..j], a) else 0
      {
        var actor := act.auths[j];
        if Chargeable(act.kind, actor) {
          r := Bump(r, actor, FIXED_FEE);
        }
        forall a ensures Mult(act.auths[..j + 1], a) == Mult(act.auths[..j], a) + if actor == a then 1 else 0 {
          assert act.auths[..j + 1] == act.auths[..j] + [actor];
          MultAppend(act.auths[..j], actor, a);
        }
      }
      assert act.auths[..|act.auths|] == act.auths;
    }

    /** `exec_one`: the code of the current receiver, then its receipt and its own RAM and gas entries. */
    method ExecOne() returns (r: Option<Trace>)
      requires tx.Valid() && QueueDistinct() && GasMirrors() && ramDeltas == map[]
      modifies this, tx
      ensures receiver == old(receiver) && old(notified) <= notified
      ensures r.Some? ==> receiver in tx.accounts && act.account in tx.accounts && forall a <- act.auths :: a in tx.accounts
      ensures r.Some? ==> r.value.receipt.globalSeq == tx.origin.global + old(|tx.executed|) + 1
      ensures r.Some? ==> tx.Valid() && QueueDistinct() && GasMirrors() && ramDeltas == map[]
      ensures r.Some? ==> tx.executed == old(tx.executed) + [r.value.receipt]
      ensures r.Some? ==> r.value.receipt.receiver == receiver && r.value.receipt.act == act
      ensures r.Some? ==> r.value.inlines == [] && r.value.depth == depth && GasMatches(r.value, tx.activated)
      ensures r.Some? ==> var q := ApplyAll(tx.accounts, old(Queue()), EffectsOf(tx.Around(), r.value.receipt));
                          q.Some? && q.value.(ramDeltas := map[]) == Queue() && q.value.ramDeltas == r.value.ramDeltas
      ensures RunOne(tx.Around(), act, old(Queue()), receiver, old(|tx.executed|)) == if r.Some? then Some(Queue()) else None
      ensures r.Some? ==> forall a :: RamOf(tx.ram, a) == RamOf(old(tx.ram), a) + RamOf(r.value.ramDeltas, a)
    {
      hide Sequenced, ApplyAll, Mult, CodeCounted, AbiCounted;
      if receiver !in tx.accounts {
        return None;
      }
      ghost var before := tx.Now();
      var ok := RunCode(tx.code(receiver, act, |tx.executed|));
      if !ok {
        return None;
      }
      var receipt := tx.Record(receiver, act, before);
      if receipt.None? {
        return None;
      }
      var deltas, fees := ramDeltas, gas;
      ramDeltas, gas := map[], map[];
      if tx.activated {
        fees := AddFees(fees);
      }
      return Some(Trace(receipt.value, depth, deltas, fees, []));
    }

    /** The traces of this context so far account for everything the transaction recorded since `start`. */
    ghost predicate Accounted(head: Trace, inlines: seq<Trace>, executed: seq<Receipt>, ram: map<Account, int>)
      reads tx
    {
      && tx.executed == executed + ([head.receipt] + ReceiptsOf(inlines))
      && forall a :: RamOf(tx.ram, a) == RamOf(ram, a) + RamOf(head.ramDeltas, a) + TotalDeltas(inlines, a)
    }

    ghost predicate AllProper(ts: seq<Trace>)
      reads this
    {
      forall i :: 0 <= i < |ts| ==> Proper(ts[i], tx.activated, tx.maxInlineDepth)
    }

    /** One more trace: the books still balance. */
    lemma AccountedNext(head: Trace, inlines: seq<Trace>, t: Trace, executed: seq<Receipt>, ram: map<Account, int>,
                        executedBefore: seq<Receipt>, ramBefore: map<Account, int>)
      requires executedBefore == executed + ([head.receipt] + ReceiptsOf(inlines))
      requires forall a :: RamOf(ramBefore, a) == RamOf(ram, a) + RamOf(head.ramDeltas, a) + TotalDeltas(inlines, a)
      requires tx.executed == executedBefore + Receipts(t)
      requires forall a :: RamOf(tx.ram, a) == RamOf(ramBefore, a) + TotalDelta(t, a)
      ensures Accounted(head, inlines + [t], executed, ram)
    {
      hide Receipts, TotalDelta, RamOf;
      ReceiptsAppend(inlines, t);
      assert executed + ([head.receipt] + ReceiptsOf(inlines)) + Receipts(t) ==
             executed + ([head.receipt] + (ReceiptsOf(inlines) + Receipts(t)));
      forall a ensures RamOf(tx.ram, a) == RamOf(ram, a) + RamOf(head.ramDeltas, a) + TotalDeltas(inlines + [t], a) {
        TotalAppend(inlines, t, a);
      }
    }

    /** The executions so far, for the head and the traces below it, queued what the context holds. */
    ghost predicate Ran(head: Trace, below: seq<Trace>)
      reads this
    {
      Queued(tx.Around(), act.account, [head.receipt] + Heads(below))
      == Some(Progress(Queue(), [head.ramDeltas] + OwnDeltas(below)))
    }

    lemma RanNext(head: Trace, below: seq<Trace>, t: Trace, before: Pending, q: Pending)
      requires Queued(tx.Around(), act.account, [head.receipt] + Heads(below))
               == Some(Progress(before, [head.ramDeltas] + OwnDeltas(below)))
      requires ApplyAll(tx.accounts, before, EffectsOf(tx.Around(), t.receipt)) == Some(q)
      requires q.(ramDeltas := map[]) == Queue() && q.ramDeltas == t.ramDeltas
      ensures Ran(head, below + [t])
    {
      hide Queued, ApplyAll;
      var runs, ds := [head.receipt] + Heads(below), [head.ramDeltas] + OwnDeltas(below);
      QueuedNext(tx.Around(), act.account, runs, t.receipt, Progress(before, ds), q);
      assert runs + [t.receipt] == [head.receipt] + Heads(below + [t]);
      assert ds + [t.ramDeltas] == [head.ramDeltas] + OwnDeltas(below + [t]);
    }

    lemma RanHolds(head: Trace, below: seq<Trace>)
      requires Ran(head, below)
      ensures Queued(tx.Around(), act.account, [head.receipt] + Heads(below))
              == Some(Progress(Queue(), [head.ramDeltas] + OwnDeltas(below)))
    {
    }

    lemma RanFirst(head: Trace, q: Pending)
      requires ApplyAll(tx.accounts, Pending([act.account], [], [], map[]), EffectsOf(tx.Around(), head.receipt)) == Some(q)
      requires q.(ramDeltas := map[]) == Queue() && q.ramDeltas == head.ramDeltas
      ensures Ran(head, [])
    {
      var w := tx.Around();
      assert Queued(w, act.account, []) == Some(Progress(Pending([act.account], [], [], map[]), []));
      hide Queued, ApplyAll;
      QueuedNext(w, act.account, [], head.receipt, Progress(Pending([act.account], [], [], map[]), []), q);
      assert [] + [head.receipt] == [head.receipt] + Heads([]);
      assert [] + [head.ramDeltas] == [head.ramDeltas] + OwnDeltas([]);
    }

    /** What holds after the first `n` accounts of the queue have run. */
    ghost predicate Notifying(head: Trace, traces: seq<Trace>, n: nat, executed: seq<Receipt>, ram: map<Account, int>)
      reads this, tx
    {
      && 1 <= n <= |notified| && |traces| == n - 1 && ramDeltas == map[]
      && tx.Valid() && QueueDistinct() && GasMirrors()
      && Accounted(head, traces, executed, ram)
      && AllProper(traces) && InOrder(head, traces, act, notified, n) && Ran(head, traces)
      && (forall k :: 0 <= k < |traces| ==> traces[k].inlines == [])
      && (forall k :: 0 <= k < n ==> notified[k] in tx.accounts)
      && |tx.executed| == |executed| + n && Present(tx.Around(), head, traces, n - 1, |executed|)
      && Caused(tx.Around(), [head.receipt] + Heads(traces))
    }

    /** The next account in the queue. */
    method NotifyNext(head: Trace, traces: seq<Trace>, ghost executed: seq<Receipt>, ghost ram: map<Account, int>)
      returns (r: Option<Trace>)
      requires depth <= tx.maxInlineDepth
      requires Notifying(head, traces, |traces| + 1, executed, ram) && |traces| + 1 < |notified|
      modifies this, tx
      ensures r.Some? ==> Notifying(head, traces + [r.value], |traces| + 2, executed, ram)
      ensures RunQueue(tx.Around(), act, old(Queue()), |traces| + 1, old(|tx.executed|))
              == if r.Some? then RunQueue(tx.Around(), act, Queue(), |traces| + 2, |tx.executed|) else None
    {
      hide Sequenced, RamOf, GasMatches, InOrder, ApplyAll, Ran, Queued, RunOne, Present, Caused, AllEffects, RecipientsOf;
      QueueBound(notified, |traces| + 1, tx.accounts);
      var i := |traces| + 1;
      ghost var executedBefore, ramBefore, queueBefore, before := tx.executed, tx.ram, notified, Queue();
      RanHolds(head, traces);
      AskedFor(tx.Around(), act.account, [head.receipt] + Heads(traces), i);
      receiver := notified[i];
      r := ExecOne();
      if r.Some? {
        var t := r.value;
        assert Receipts(t) == [t.receipt] + [];
        AccountedNext(head, traces, t, executed, ram, executedBefore, ramBefore);
        InOrderGrows(head, traces, act, queueBefore, i, t, notified);
        RanNext(head, traces, t, before, ApplyAll(tx.accounts, before, EffectsOf(tx.Around(), t.receipt)).value);
        RunsNext(tx.Around(), head, traces, t, |executed|);
      }
    }

    /** The receiver of the action itself. */
    method NotifyFirst() returns (r: Option<Trace>)
      requires tx.Valid() && notified == [] && gas == map[] && ramDeltas == map[] && depth <= tx.maxInlineDepth
      requires receiver == act.account && inlineActions == [] && contextFreeActions == []
      modifies this, tx
      ensures r.Some? ==> Notifying(r.value, [], 1, old(tx.executed), old(tx.ram))
      ensures r.Some? ==> r.value.inlines == [] && Proper(r.value, tx.activated, tx.maxInlineDepth)
      ensures RunQueue(tx.Around(), act, Pending([act.account], [], [], map[]), 0, old(|tx.executed|))
              == if r.Some? then RunQueue(tx.Around(), act, Queue(), 1, |tx.executed|) else None
    {
      hide Sequenced, RamOf, GasMatches, InOrder, ApplyAll, Ran, RunOne;
      QueueBound([act.account], 0, tx.accounts);
      notified := notified + [receiver];
      NoEntries();
      ghost var start := Queue();
      assert start == Pending([act.account], [], [], map[]);
      r := ExecOne();
      if r.Some? {
        FirstInOrder(r.value, act, notified);
        RanFirst(r.value, ApplyAll(tx.accounts, start, EffectsOf(tx.Around(), r.value.receipt)).value);
      }
    }

    /** `exec`, the notification loop: the queue may grow while it is walked. */
    method ExecNotified() returns (r: Option<(Trace, seq<Trace>)>)
      requires tx.Valid() && notified == [] && gas == map[] && ramDeltas == map[] && depth <= tx.maxInlineDepth
      requires receiver == act.account && inlineActions == [] && contextFreeActions == []
      modifies this, tx
      ensures r.Some? ==> Notifying(r.value.0, r.value.1, |notified|, old(tx.executed), old(tx.ram))
      ensures r.Some? ==> r.value.0.inlines == [] && Proper(r.value.0, tx.activated, tx.maxInlineDepth)
      ensures RunQueue(tx.Around(), act, Pending([act.account], [], [], map[]), 0, old(|tx.executed|))
              == if r.Some? then Some((Queue(), |tx.executed|)) else None
    {
      hide Sequenced, RamOf, Proper, InOrder, Ran, Accounted, RunOne;
      ghost var w, all := tx.Around(), RunQueue(tx.Around(), act, Pending([act.account], [], [], map[]), 0, |tx.executed|);
      var first := NotifyFirst();
      if first.None? {
        return None;
      }
      var head := first.value;
      var traces: seq<Trace> := [];
      var i := 1;
      while i < |notified|
        invariant Notifying(head, traces, i, old(tx.executed), old(tx.ram))
        invariant all == RunQueue(w, act, Queue(), i, |tx.executed|)
        decreases |tx.accounts| - i
      {
        QueueFits(notified[..i], tx.accounts);
        var t := NotifyNext(head, traces, old(tx.executed), old(tx.ram));
        if t.None? {
          return None;
        }
        traces := traces + [t.value];
        i := i + 1;
        QueueFits(notified[..i], tx.accounts);
      }
      return Some((head, traces));
    }

    lemma NotifyingGives(head: Trace, traces: seq<Trace>, executed: seq<Receipt>, ram: map<Account, int>)
      requires Notifying(head, traces, |notified|, executed, ram)
      ensures tx.Valid() && QueueDistinct() && Accounted(head, traces, executed, ram) && AllProper(traces)
      ensures |traces| == |notified| - 1 && InOrder(head, traces, act, notified, |notified|) && Ran(head, traces)
      ensures forall k :: 0 <= k < |traces| ==> traces[k].inlines == []
      ensures |tx.executed| == |executed| + 1 + |traces| && Present(tx.Around(), head, traces, |traces|, |executed|)
      ensures Caused(tx.Around(), [head.receipt] + Heads(traces))
    {
      hide Present, Caused, InOrder, Ran, Accounted, Sequenced;
    }

    /** A context whose executions and queued actions are done has a legal trace. */
    lemma Complete(head: Trace, ran: seq<Trace>, more: seq<Trace>, n: nat)
      requires RanFor(tx.Around(), head.(inlines := ran + more), ran + more, |ran|)
      requires Present(tx.Around(), head, ran, |ran|, n) && forall k :: 0 <= k < |ran| ==> ran[k].inlines == []
      requires more != [] ==> depth < tx.maxInlineDepth
      requires AllLegal(tx.Around(), tx.maxInlineDepth, more, depth + 1, n + 1 + |ran|)
      ensures Legal(tx.Around(), tx.maxInlineDepth, head.(inlines := ran + more), depth, n)
    {
      hide RanFor, ReceiptsOf, Legal;
      var w, limit, all := tx.Around(), tx.maxInlineDepth, ran + more;
      forall i | |ran| <= i < |all| ensures Legal(w, limit, all[i], depth + 1, n + 1 + |ReceiptsOf(all[..i])|) {
        var k := i - |ran|;
        assert all[..i] == ran + more[..k] && all[i] == more[k];
        ReceiptsConcat(ran, more[..k]);
        SingleReceipts(ran);
      }
      assert LegalWith(w, limit, head.(inlines := all), depth, n, |ran|);
      LegalBy(w, limit, head.(inlines := all), depth, n, |ran|);
    }

    /** Finished traces of the queued actions, hung below those of the notified accounts. */
    lemma AccountedAll(head: Trace, ran: seq<Trace>, more: seq<Trace>, executed: seq<Receipt>, ram: map<Account, int>,
                       executedBefore: seq<Receipt>, ramBefore: map<Account, int>)
      requires executedBefore == executed + ([head.receipt] + ReceiptsOf(ran))
      requires forall a :: RamOf(ramBefore, a) == RamOf(ram, a) + RamOf(head.ramDeltas, a) + TotalDeltas(ran, a)
      requires tx.executed == executedBefore + ReceiptsOf(more)
      requires forall a :: RamOf(tx.ram, a) == RamOf(ramBefore, a) + TotalDeltas(more, a)
      ensures Accounted(head, ran + more, executed, ram)
    {
      hide RamOf, TotalDeltas, ReceiptsOf;
      ReceiptsConcat(ran, more);
      var here := [head.receipt];
      assert executed + (here + ReceiptsOf(ran)) + ReceiptsOf(more) == executed + (here + (ReceiptsOf(ran) + ReceiptsOf(more)));
      forall a ensures RamOf(tx.ram, a) == RamOf(ram, a) + RamOf(head.ramDeltas, a) + TotalDeltas(ran + more, a) {
        TotalConcat(ran, more, a);
      }
    }

    /** `exec`: notifications first, then context-free inline actions, then inline actions. */
    method Exec() returns (r: Option<Trace>)
      requires tx.Valid() && notified == [] && gas == map[] && ramDeltas == map[] && depth <= tx.maxInlineDepth
      requires receiver == act.account && inlineActions == [] && contextFreeActions == []
      modifies this, tx
      ensures RunTree(tx.Around(), tx.maxInlineDepth, act, depth, old(|tx.executed|))
              == if r.Some? then Some(|tx.executed|) else None
      ensures r.Some? ==> r.value.receipt.act == act
      ensures r.Some? ==> Legal(tx.Around(), tx.maxInlineDepth, r.value, depth, old(|tx.executed|))
      ensures r.Some? ==> tx.Valid() && tx.executed == old(tx.executed) + Receipts(r.value)
      ensures r.Some? ==> forall a :: RamOf(tx.ram, a) == RamOf(old(tx.ram), a) + TotalDelta(r.value, a)
      ensures r.Some? ==> Proper(r.value, tx.activated, tx.maxInlineDepth)
      ensures r.Some? ==> QueueDistinct() && InOrder(r.value, r.value.inlines, act, notified, |notified|)
      decreases tx.maxInlineDepth - depth, 1
    {
      hide Sequenced, Proper, RamOf, TotalDelta, TotalDeltas, Receipts, ReceiptsOf, InOrder, Ran, Legal, AllLegal, Present, Caused, RanFor, RunsOf, Queued;
      hide RunQueue, Notifying, RunAll;
      var notifiedTraces := ExecNotified();
      if notifiedTraces.None? {
        return None;
      }
      var (head, ran) := notifiedTraces.value;
      assert Notifying(head, ran, |notified|, old(tx.executed), old(tx.ram));
      NotifyingGives(head, ran, old(tx.executed), old(tx.ram));
      HeadAct(head, ran, act, notified);
      var queue := contextFreeActions + inlineActions;
      var more: seq<Trace> := [];
      if |queue| > 0 {
        if depth >= tx.maxInlineDepth {
          return None;
        }
        ghost var executedBefore, ramBefore := tx.executed, tx.ram;
        var children := RunActions(tx, queue, depth + 1);
        if children.None? {
          return None;
        }
        more := children.value;
        AccountedAll(head, ran, more, old(tx.executed), old(tx.ram), executedBefore, ramBefore);
      } else {
        assert ran + more == ran;
        NothingYet(tx.Around(), tx.maxInlineDepth, depth + 1, |tx.executed|);
      }
      var traces := ran + more;
      forall a ensures RamOf(tx.ram, a) == RamOf(old(tx.ram), a) + TotalDelta(head.(inlines := traces), a) {
        Assemble(head, traces, tx.activated, tx.maxInlineDepth, a);
      }
      Assemble(head, traces, tx.activated, tx.maxInlineDepth, 0);
      MoreInOrder(head, ran, act, notified, more);
      RanHolds(head, ran);
      InOrderRuns(head, ran, act, notified);
      Explain(tx.Around(), head, ran, more, act, Queue());
      Complete(head, ran, more, old(|tx.executed|));
      return Some(head.(inlines := traces));
    }
  }

  /** Actions one after the other: those of a transaction at depth zero, those an action queued one below it. */
  method RunActions(tx: Transaction, actions: seq<Action>, depth: nat) returns (r: Option<seq<Trace>>)
    requires tx.Valid() && depth <= tx.maxInlineDepth
    modifies tx
    ensures RunAll(tx.Around(), tx.maxInlineDepth, actions, depth, old(|tx.executed|)) == if r.Some? then Some(|tx.executed|) else None
    ensures r.Some? ==> tx.Valid() && tx.executed == old(tx.executed) + ReceiptsOf(r.value)
    ensures r.Some? ==> forall a :: RamOf(tx.ram, a) == RamOf(old(tx.ram), a) + TotalDeltas(r.value, a)
    ensures r.Some? ==> |r.value| == |actions| && forall i :: 0 <= i < |r.value| ==> Proper(r.value[i], tx.activated, tx.maxInlineDepth)
    ensures r.Some? ==> Acts(r.value) == actions
    ensures r.Some? ==> AllLegal(tx.Around(), tx.maxInlineDepth, r.value, depth, old(|tx.executed|))
    decreases tx.maxInlineDepth - depth, 2
  {
    hide Sequenced, Proper, RamOf, TotalDelta, Receipts, Legal, RunTree;
    var traces: seq<Trace> := [];
    NothingYet(tx.Around(), tx.maxInlineDepth, depth, |tx.executed|);
    hide AllLegal;
    assert tx.executed + [] == tx.executed;
    for i := 0 to |actions|
      invariant tx.Valid() && tx.executed == old(tx.executed) + ReceiptsOf(traces)
      invariant forall a :: RamOf(tx.ram, a) == RamOf(old(tx.ram), a) + TotalDeltas(traces, a)
      invariant RunAll(tx.Around(), tx.maxInlineDepth, actions, depth, old(|tx.executed|))
                == RunAll(tx.Around(), tx.maxInlineDepth, actions[i..], depth, |tx.executed|)
      invariant |traces| == i && forall k :: 0 <= k < |traces| ==> Proper(traces[k], tx.activated, tx.maxInlineDepth)
      invariant forall k :: 0 <= k < |traces| ==> traces[k].receipt.act == actions[k]
      invariant AllLegal(tx.Around(), tx.maxInlineDepth, traces, depth, old(|tx.executed|))
    {
      assert actions[i..][0] == actions[i] && actions[i..][1..] == actions[i + 1..];
      var ctx := new ActionContext(tx, actions[i], depth);
      var t := ctx.Exec();
      if t.None? {
        return None;
      }
      ReceiptsAppend(traces, t.value);
      assert old(tx.executed) + ReceiptsOf(traces) + Receipts(t.value) == old(tx.executed) + (ReceiptsOf(traces) + Receipts(t.value));
      forall a ensures TotalDeltas(traces + [t.value], a) == TotalDeltas(traces, a) + TotalDelta(t.value, a) {
        TotalAppend(traces, t.value, a);
      }
      AllLegalNext(tx.Around(), tx.maxInlineDepth, traces, t.value, depth, old(|tx.executed|));
      traces := traces + [t.value];
    }
    return Some(traces);
  }

  /** When every account has run, whoever is next in the queue does not exist. */
  lemma {:induction false} QueueBound(queue: seq<Account>, i: nat, accounts: set<Account>)
    requires forall j, k :: 0 <= j < k < |queue| ==> queue[j] != queue[k]
    requires forall j :: 0 <= j < i && j < |queue| ==> queue[j] in accounts
    ensures i < |queue| && i >= |accounts| ==> queue[i] !in accounts
  {
    if i < |queue| && queue[i] in accounts {
      QueueFits(queue[..i + 1], accounts);
    }
  }

  lemma {:induction false} QueueFits(queue: seq<Account>, accounts: set<Account>)
    requires forall i, j :: 0 <= i < j < |queue| ==> queue[i] != queue[j]
    requires forall i :: 0 <= i < |queue| ==> queue[i] in accounts
    ensures |queue| <= |accounts|
  {
    if queue != [] {
      var last := queue[|queue| - 1];
      QueueFits(queue[..|queue| - 1], accounts - {last});
    }
  }
}
