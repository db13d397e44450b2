/** Execution refuses nothing it could have done: where there is a legal trace, it succeeds. */
module ActionLegal {
  import opened Basics
  import opened TableStore
  import opened ActionEffects
  import opened ActionTree

  lemma {:induction false} FirstOnlyPrefix(s: seq<Account>, t: seq<Account>)
    ensures FirstOnly(s) <= FirstOnly(s + t)
    decreases |t|
  {
    if t == [] {
      assert s + t == s;
    } else {
      var n := |t| - 1;
      FirstOnlyPrefix(s, t[..n]);
      FirstOnlyNext(s + t[..n], t[n]);
      assert s + t == s + t[..n] + [t[n]];
    }
  }

  lemma {:induction false} EffectsSplit(w: World, runs: seq<Receipt>, i: nat)
    requires i <= |runs|
    ensures AllEffects(w, runs) == AllEffects(w, runs[..i]) + AllEffects(w, runs[i..])
    decreases |runs|
  {
    hide EffectsOf;
    var n := |runs| - 1;
    if i == |runs| {
      assert runs[..i] == runs && runs[i..] == [];
    } else {
      EffectsSplit(w, runs[..n], i);
      assert runs[..n][..i] == runs[..i] && runs[..n][i..] == runs[i..][..n - i];
      assert runs[i..][n - i] == runs[n];
    }
  }

  /** The queue a context has after its first `i` executions is a beginning of the final one. */
  lemma {:induction false} QueueBegins(w: World, account: Account, runs: seq<Receipt>, i: nat)
    requires i <= |runs| && AllAllowed(w.accounts, AllEffects(w, runs))
    ensures Queued(w, account, runs).Some? && Queued(w, account, runs[..i]).Some?
    ensures Queued(w, account, runs[..i]).value.pending.notified <= Queued(w, account, runs).value.pending.notified
  {
    hide Queued, AllEffects, RecipientsOf, FirstOnly, AllAllowed, Recorded;
    var a, b := AllEffects(w, runs[..i]), AllEffects(w, runs[i..]);
    EffectsSplit(w, runs, i);
    AllowedParts(w.accounts, a, b);
    QueuedExactly(w, account, runs);
    QueuedExactly(w, account, runs[..i]);
    RecipientsAppend(a, b);
    assert [account] + (RecipientsOf(a) + RecipientsOf(b)) == [account] + RecipientsOf(a) + RecipientsOf(b);
    FirstOnlyPrefix([account] + RecipientsOf(a), RecipientsOf(b));
  }

  /** The i-th execution is next in the queue when its turn comes. */
  lemma {:induction false} NextInQueue(w: World, account: Account, runs: seq<Receipt>, i: nat)
    requires i < |runs| && AllAllowed(w.accounts, AllEffects(w, runs)) && Caused(w, runs)
    requires runs[0].receiver == account && Queued(w, account, runs).Some?
    requires var queue := Queued(w, account, runs).value.pending.notified;
             && |queue| == |runs| && (forall k :: 0 <= k < |queue| ==> runs[k].receiver == queue[k])
             && (forall j, k :: 0 <= j < k < |queue| ==> queue[j] != queue[k])
    ensures Queued(w, account, runs[..i]).Some?
    ensures var now := Queued(w, account, runs[..i]).value.pending.notified;
            i < |now| && now[i] == runs[i].receiver
  {
    hide Queued, AllEffects, RecipientsOf, AllAllowed, Recorded;
    var queue := Queued(w, account, runs).value.pending.notified;
    QueueBegins(w, account, runs, i);
    QueuedExactly(w, account, runs[..i]);
    var now, asked := Queued(w, account, runs[..i]).value.pending.notified, [account] + RecipientsOf(AllEffects(w, runs[..i]));
    FirstOnlyMembers(asked, runs[i].receiver);
    var k :| 0 <= k < |now| && now[k] == runs[i].receiver;
    assert queue[k] == queue[i];
  }

  /** What all executions of one action have in common. */
  ghost predicate Ready(w: World, act: Action, runs: seq<Receipt>, n: nat) {
    && runs != [] && runs[0].receiver == act.account && act.account in w.accounts && (forall a <- act.auths :: a in w.accounts)
    && AllAllowed(w.accounts, AllEffects(w, runs)) && Caused(w, runs)
    && (forall i :: 0 <= i < |runs| ==>
          runs[i].act == act && runs[i].receiver in w.accounts && runs[i].globalSeq == w.first + n + i + 1)
    && Queued(w, act.account, runs).Some?
    && var queue := Queued(w, act.account, runs).value.pending.notified;
    && |queue| == |runs| && (forall k :: 0 <= k < |queue| ==> runs[k].receiver == queue[k])
    && (forall j, k :: 0 <= j < k < |queue| ==> queue[j] != queue[k])
  }

  lemma {:induction false} RunQueueStep(w: World, act: Action, p: Pending, i: nat, n: nat, q: Pending)
    requires i < |p.notified| && i < |w.accounts| && RunOne(w, act, p, p.notified[i], n) == Some(q)
    ensures RunQueue(w, act, p, i, n) == RunQueue(w, act, q, i + 1, n + 1)
  {
    hide RunOne;
  }

  lemma {:induction false} QueueDone(w: World, act: Action, runs: seq<Receipt>, n: nat)
    requires Ready(w, act, runs, n)
    ensures Queued(w, act.account, runs).Some?
    ensures var p := Queued(w, act.account, runs).value.pending;
            RunQueue(w, act, p, |runs|, n + |runs|) == Some((p, n + |runs|))
  {
    hide Queued, AllEffects, AllAllowed, Caused;
  }

  lemma {:induction false} TurnComes(w: World, act: Action, runs: seq<Receipt>, n: nat, i: nat)
    requires Ready(w, act, runs, n) && i < |runs|
    ensures Queued(w, act.account, runs[..i]).Some?
    ensures var now := Queued(w, act.account, runs[..i]).value.pending.notified;
            i < |now| && now[i] == runs[i].receiver
  {
    hide Queued, AllEffects, AllAllowed, Caused;
    NextInQueue(w, act.account, runs, i);
  }

  /** From the i-th execution on the queue runs to its end. */
  lemma {:induction false} QueueRuns(w: World, act: Action, runs: seq<Receipt>, n: nat, i: nat)
    requires Ready(w, act, runs, n) && i <= |runs|
    ensures Queued(w, act.account, runs).Some? && Queued(w, act.account, runs[..i]).Some?
    ensures RunQueue(w, act, Queued(w, act.account, runs[..i]).value.pending, i, n + i)
            == Some((Queued(w, act.account, runs).value.pending, n + |runs|))
    decreases |runs| - i
  {
    hide Queued, RunOne, Ready, RunQueue;
    if i == |runs| {
      assert runs[..i] == runs;
      QueueDone(w, act, runs, n);
    } else {
      TurnComes(w, act, runs, n, i);
      QueueRuns(w, act, runs, n, i + 1);
      OneRuns(w, act, runs, n, i);
      RoomLeft(w, act, runs, n, i);
      RunQueueStep(w, act, Queued(w, act.account, runs[..i]).value.pending, i, n + i,
                   Queued(w, act.account, runs[..i + 1]).value.pending);
    }
  }

  lemma {:induction false} RoomLeft(w: World, act: Action, runs: seq<Receipt>, n: nat, i: nat)
    requires Ready(w, act, runs, n) && i < |runs|
    ensures i < |w.accounts|
  {
    hide Queued, AllEffects, AllAllowed, Caused;
    var queue := Queued(w, act.account, runs).value.pending.notified;
    QueueFits(queue, w.accounts);
  }

  lemma {:induction false} OneRuns(w: World, act: Action, runs: seq<Receipt>, n: nat, i: nat)
    requires Ready(w, act, runs, n) && i < |runs|
    requires Queued(w, act.account, runs[..i]).Some? && Queued(w, act.account, runs[..i + 1]).Some?
    ensures RunOne(w, act, Queued(w, act.account, runs[..i]).value.pending, runs[i].receiver, n + i)
            == Some(Queued(w, act.account, runs[..i + 1]).value.pending)
  {
    hide ApplyAll, AllEffects, AllAllowed, Caused;
    assert runs[..i + 1][..i] == runs[..i];
    assert EffectsOf(w, runs[i]) == w.code(runs[i].receiver, act, n + i);
  }

  lemma {:induction false} LegalIsReady(w: World, t: Trace, k: nat, n: nat)
    requires RanFor(w, t, t.inlines, k) && Present(w, t, t.inlines, k, n)
    ensures var runs, act := [t.receipt] + Heads(t.inlines[..k]), t.receipt.act;
            && Ready(w, act, runs, n)
            && var p := Queued(w, act.account, runs).value.pending;
            p.contextFree + p.inlines == Acts(t.inlines[k..])
  {
    hide Queued, AllEffects, RecipientsOf, ContextFreeOf, InlinesOf, AllAllowed, Recorded, Caused;
    var runs, act := [t.receipt] + Heads(t.inlines[..k]), t.receipt.act;
    QueuedExactly(w, act.account, runs);
    var queue := FirstOnly([act.account] + RecipientsOf(AllEffects(w, runs)));
    assert queue[0] == act.account;
    assert forall i :: 0 < i < |runs| ==> runs[i] == t.inlines[i - 1].receipt;
  }

  lemma {:induction false} ChildIsLegal(w: World, limit: nat, t: Trace, depth: nat, n: nat, k: nat, i: nat)
    requires LegalWith(w, limit, t, depth, n, k) && k <= i < |t.inlines|
    ensures Legal(w, limit, t.inlines[i], depth + 1, n + 1 + |ReceiptsOf(t.inlines[..i])|)
  {
    hide RanFor, Present, ReceiptsOf;
  }

  lemma {:induction false} RunAllStep(w: World, limit: nat, acts: seq<Action>, depth: nat, n: nat, m: nat)
    requires acts != [] && RunTree(w, limit, acts[0], depth, n) == Some(m)
    ensures RunAll(w, limit, acts, depth, n) == RunAll(w, limit, acts[1..], depth, m)
  {
    hide RunTree;
  }

  lemma {:induction false} NoneLeft(w: World, limit: nat, depth: nat, n: nat)
    ensures RunAll(w, limit, [], depth, n) == Some(n)
  {
  }

  /** The actions a legal trace's context sent all run. */
  lemma {:induction false} ChildrenSucceed(w: World, limit: nat, t: Trace, depth: nat, n: nat, k: nat, i: nat)
    requires LegalWith(w, limit, t, depth, n, k) && k <= i <= |t.inlines|
    ensures RunAll(w, limit, Acts(t.inlines[i..]), depth + 1, n + 1 + |ReceiptsOf(t.inlines[..i])|)
            == Some(n + 1 + |ReceiptsOf(t.inlines)|)
    decreases t, |t.inlines| - i
  {
    hide RunTree, RunAll, LegalWith, Receipts, ReceiptsOf, Legal;
    var ts := t.inlines;
    if i == |ts| {
      assert ts[..i] == ts && Acts(ts[i..]) == [];
      NoneLeft(w, limit, depth + 1, n + 1 + |ReceiptsOf(ts)|);
    } else {
      var m := n + 1 + |ReceiptsOf(ts[..i])|;
      ChildIsLegal(w, limit, t, depth, n, k, i);
      LegalSucceeds(w, limit, ts[i], depth + 1, m);
      ChildrenSucceed(w, limit, t, depth, n, k, i + 1);
      assert ts[..i + 1] == ts[..i] + [ts[i]];
      ReceiptsAppend(ts[..i], ts[i]);
      var acts := Acts(ts[i..]);
      assert acts[0] == ts[i].receipt.act && acts[1..] == Acts(ts[i + 1..]);
      RunAllStep(w, limit, acts, depth + 1, m, m + |Receipts(ts[i])|);
    }
  }

  lemma {:induction false} RunTreeIs(w: World, limit: nat, act: Action, depth: nat, n: nat, p: Pending, m: nat)
    requires RunQueue(w, act, Pending([act.account], [], [], map[]), 0, n) == Some((p, m))
    ensures RunTree(w, limit, act, depth, n) ==
            if p.contextFree + p.inlines == [] then Some(m)
            else if depth >= limit then None else RunAll(w, limit, p.contextFree + p.inlines, depth + 1, m)
  {
    hide RunQueue, RunAll;
  }

  lemma {:induction false} BeforeTheFirst(w: World, account: Account)
    ensures Queued(w, account, []) == Some(Progress(Pending([account], [], [], map[]), []))
  {
  }

  lemma {:induction false} LegalAt(w: World, limit: nat, t: Trace, depth: nat, n: nat) returns (k: nat)
    requires Legal(w, limit, t, depth, n)
    ensures LegalWith(w, limit, t, depth, n, k)
  {
    k :| LegalWith(w, limit, t, depth, n, k);
  }

  lemma {:induction false} LegalParts(w: World, limit: nat, t: Trace, depth: nat, n: nat, k: nat)
    requires LegalWith(w, limit, t, depth, n, k)
    ensures RanFor(w, t, t.inlines, k) && Present(w, t, t.inlines, k, n) && k <= |t.inlines|
    ensures k < |t.inlines| ==> depth < limit
    ensures |ReceiptsOf(t.inlines[..k])| == k && |Receipts(t)| == 1 + |ReceiptsOf(t.inlines)|
  {
    hide Present, ReceiptsOf;
    RunsCount(w, t, k);
  }

  /** Where there is a legal trace of an action, running the action succeeds, with as many executions. */
  lemma {:induction false} LegalSucceeds(w: World, limit: nat, t: Trace, depth: nat, n: nat)
    requires Legal(w, limit, t, depth, n)
    ensures RunTree(w, limit, t.receipt.act, depth, n) == Some(n + |Receipts(t)|)
    decreases t
  {
    hide RunQueue, Ready, RanFor, Present, Legal, LegalWith, ReceiptsOf, Receipts, RunTree, RunAll, Queued;
    var k := LegalAt(w, limit, t, depth, n);
    LegalParts(w, limit, t, depth, n, k);
    var runs, act := [t.receipt] + Heads(t.inlines[..k]), t.receipt.act;
    LegalIsReady(w, t, k, n);
    QueueRuns(w, act, runs, n, 0);
    assert runs[..0] == [];
    BeforeTheFirst(w, act.account);
    RunTreeIs(w, limit, act, depth, n, Queued(w, act.account, runs).value.pending, n + |runs|);
    ChildrenSucceed(w, limit, t, depth, n, k, k);
    if k == |t.inlines| {
      assert t.inlines[..k] == t.inlines && Acts(t.inlines[k..]) == [];
    }
  }

  lemma {:induction false} RunsCount(w: World, t: Trace, k: nat)
    requires RanFor(w, t, t.inlines, k)
    ensures |ReceiptsOf(t.inlines[..k])| == k
  {
    hide AllEffects, RunsOf, Caused, Recorded, AllAllowed;
    SingleReceipts(t.inlines[..k]);
  }
}
