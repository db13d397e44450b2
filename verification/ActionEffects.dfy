/** Actions and the calls contract code makes, one by one and taken together. */
module ActionEffects {
  import opened Basics
  import opened Sums
  import opened TableStore

  datatype Kind = NewAccount(created: Account) | Transfer(to: Account) | Other(name: nat)

  datatype Action = Action(account: Account, kind: Kind, auths: seq<Account>)

  /** The calls a contract makes that matter here; `approved` is the verdict of the authorization
      checks on an inline action, `Fail` any failed assertion. */
  datatype Effect =
    | RequireRecipient(recipient: Account)
    | SendInline(act: Action, approved: bool)
    | SendContextFree(act: Action)
    | AddRamUsage(account: Account, delta: int)
    | SetCode(account: Account)
    | SetAbi(account: Account)
    | Fail

  /* ---------- one call after the other ---------- */

  function Bump(m: map<Account, int>, a: Account, delta: int): map<Account, int> {
    m[a := RamOf(m, a) + delta]
  }

  lemma BumpAt(m: map<Account, int>, a: Account, delta: int, b: Account)
    ensures RamOf(Bump(m, a, delta), b) == RamOf(m, b) + if a == b then delta else 0
  {
  }

  /** What one context has queued so far, and the RAM entries of the current execution. */
  datatype Pending = Pending(notified: seq<Account>, contextFree: seq<Action>, inlines: seq<Action>,
                             ramDeltas: map<Account, int>)

  /** One call made by the code; `None` when it is refused. */
  function Apply(accounts: set<Account>, p: Pending, e: Effect): Option<Pending> {
    match e
    case RequireRecipient(recipient) =>
      Some(if recipient in p.notified then p else p.(notified := p.notified + [recipient]))
    case SendInline(a, approved) =>
      if a.account in accounts && approved && forall actor <- a.auths :: actor in accounts
      then Some(p.(inlines := p.inlines + [a])) else None
    case SendContextFree(a) =>
      if a.account in accounts && a.auths == [] then Some(p.(contextFree := p.contextFree + [a])) else None
    case AddRamUsage(account, delta) => Some(p.(ramDeltas := Bump(p.ramDeltas, account, delta)))
    case SetCode(account) => if account in accounts then Some(p) else None
    case SetAbi(account) => if account in accounts then Some(p) else None
    case Fail => None
  }

  function ApplyAll(accounts: set<Account>, p: Pending, es: seq<Effect>): Option<Pending> {
    if es == [] then Some(p)
    else
      var q :- ApplyAll(accounts, p, es[..|es| - 1]);
      Apply(accounts, q, es[|es| - 1])
  }

  lemma {:induction false} ApplyNext(accounts: set<Account>, p: Pending, es: seq<Effect>, i: nat)
    requires i < |es|
    ensures ApplyAll(accounts, p, es[..i + 1]) ==
            match ApplyAll(accounts, p, es[..i]) case None => None case Some(q) => Apply(accounts, q, es[i])
  {
    assert es[..i + 1][..i] == es[..i];
  }

  lemma {:induction false} NothingApplied(accounts: set<Account>, p: Pending, es: seq<Effect>)
    ensures ApplyAll(accounts, p, es[..0]) == Some(p)
  {
  }

  /** What was refused stays refused. */
  lemma {:induction false} RefusedOnce(accounts: set<Account>, p: Pending, es: seq<Effect>, i: nat)
    requires i <= |es| && ApplyAll(accounts, p, es[..i]).None?
    ensures ApplyAll(accounts, p, es).None?
    decreases |es| - i
  {
    if i < |es| {
      ApplyNext(accounts, p, es, i);
      RefusedOnce(accounts, p, es, i + 1);
    } else {
      assert es[..i] == es;
    }
  }

  /* ---------- what the calls come to ---------- */

  /** Whether a call is let through; it does not depend on the calls before. */
  predicate Allowed(accounts: set<Account>, e: Effect) {
    match e
    case SendInline(a, approved) => approved && a.account in accounts && forall actor <- a.auths :: actor in accounts
    case SendContextFree(a) => a.account in accounts && a.auths == []
    case SetCode(account) => account in accounts
    case SetAbi(account) => account in accounts
    case Fail => false
    case _ => true
  }

  predicate AllAllowed(accounts: set<Account>, es: seq<Effect>) {
    forall e <- es :: Allowed(accounts, e)
  }

  /** The actions sent, the context-free actions sent and the accounts asked to be notified, in order. */
  function InlinesOf(es: seq<Effect>): seq<Action> {
    if es == [] then [] else (if es[0].SendInline? then [es[0].act] else []) + InlinesOf(es[1..])
  }

  function ContextFreeOf(es: seq<Effect>): seq<Action> {
    if es == [] then [] else (if es[0].SendContextFree? then [es[0].act] else []) + ContextFreeOf(es[1..])
  }

  function RecipientsOf(es: seq<Effect>): seq<Account> {
    if es == [] then [] else (if es[0].RequireRecipient? then [es[0].recipient] else []) + RecipientsOf(es[1..])
  }

  function DeltaFor(a: Account): Effect -> int {
    (e: Effect) => if e.AddRamUsage? && e.account == a then e.delta else 0
  }

  function Without(s: seq<Account>, x: Account): seq<Account> {
    if s == [] then [] else (if s[0] == x then [] else [s[0]]) + Without(s[1..], x)
  }

  /** Every account where it first occurs, and nowhere else. */
  function FirstOnly(s: seq<Account>): seq<Account>
    decreases |s|
  {
    if s == [] then [] else [s[0]] + Without(FirstOnly(s[1..]), s[0])
  }

  lemma {:induction false} InlinesAppend(a: seq<Effect>, b: seq<Effect>)
    ensures InlinesOf(a + b) == InlinesOf(a) + InlinesOf(b)
  {
    if a == [] {
      assert a + b == b;
    } else {
      assert (a + b)[1..] == a[1..] + b;
      InlinesAppend(a[1..], b);
      var first := if a[0].SendInline? then [a[0].act] else [];
      assert InlinesOf(a + b) == first + InlinesOf(a[1..] + b);
      assert first + (InlinesOf(a[1..]) + InlinesOf(b)) == (first + InlinesOf(a[1..])) + InlinesOf(b);
    }
  }

  lemma {:induction false} ContextFreeAppend(a: seq<Effect>, b: seq<Effect>)
    ensures ContextFreeOf(a + b) == ContextFreeOf(a) + ContextFreeOf(b)
  {
    if a == [] {
      assert a + b == b;
    } else {
      assert (a + b)[1..] == a[1..] + b;
      ContextFreeAppend(a[1..], b);
      var first := if a[0].SendContextFree? then [a[0].act] else [];
      assert ContextFreeOf(a + b) == first + ContextFreeOf(a[1..] + b);
      assert first + (ContextFreeOf(a[1..]) + ContextFreeOf(b)) == (first + ContextFreeOf(a[1..])) + ContextFreeOf(b);
    }
  }

  lemma {:induction false} RecipientsAppend(a: seq<Effect>, b: seq<Effect>)
    ensures RecipientsOf(a + b) == RecipientsOf(a) + RecipientsOf(b)
  {
    if a == [] {
      assert a + b == b;
    } else {
      assert (a + b)[1..] == a[1..] + b;
      RecipientsAppend(a[1..], b);
      var first := if a[0].RequireRecipient? then [a[0].recipient] else [];
      assert RecipientsOf(a + b) == first + RecipientsOf(a[1..] + b);
      assert first + (RecipientsOf(a[1..]) + RecipientsOf(b)) == (first + RecipientsOf(a[1..])) + RecipientsOf(b);
    }
  }

  lemma {:induction false} OneCall(e: Effect)
    ensures InlinesOf([e]) == if e.SendInline? then [e.act] else []
    ensures ContextFreeOf([e]) == if e.SendContextFree? then [e.act] else []
    ensures RecipientsOf([e]) == if e.RequireRecipient? then [e.recipient] else []
  {
    assert [e][1..] == [];
  }

  lemma {:induction false} WithoutAppend(s: seq<Account>, t: seq<Account>, x: Account)
    ensures Without(s + t, x) == Without(s, x) + Without(t, x)
  {
    if s == [] {
      assert s + t == t;
    } else {
      assert (s + t)[1..] == s[1..] + t;
      WithoutAppend(s[1..], t, x);
      var first := if s[0] == x then [] else [s[0]];
      assert first + (Without(s[1..], x) + Without(t, x)) == (first + Without(s[1..], x)) + Without(t, x);
    }
  }

  lemma {:induction false} WithoutOne(y: Account, x: Account)
    ensures Without([y], x) == if x == y then [] else [y]
  {
    assert [y][1..] == [];
  }

  /** One more account is added at the end if it is new. */
  lemma {:induction false} FirstOnlyNext(s: seq<Account>, x: Account)
    ensures FirstOnly(s + [x]) == if x in s then FirstOnly(s) else FirstOnly(s) + [x]
    decreases |s|
  {
    if s == [] {
      assert s + [x] == [x] && [x][1..] == [];
    } else {
      assert (s + [x])[1..] == s[1..] + [x] && s == [s[0]] + s[1..];
      FirstOnlyNext(s[1..], x);
      WithoutAppend(FirstOnly(s[1..]), [x], s[0]);
      WithoutOne(x, s[0]);
      var t := Without(FirstOnly(s[1..]), s[0]);
      assert [s[0]] + (t + [x]) == [s[0]] + t + [x] && t + [] == t;
    }
  }

  lemma {:induction false} FirstOnlyMembers(s: seq<Account>, x: Account)
    ensures x in FirstOnly(s) <==> x in s
    decreases |s|
  {
    if s != [] {
      FirstOnlyMembers(s[1..], x);
      WithoutMembers(FirstOnly(s[1..]), s[0], x);
      assert s == [s[0]] + s[1..];
    }
  }

  lemma {:induction false} WithoutMembers(s: seq<Account>, x: Account, y: Account)
    ensures y in Without(s, x) <==> y in s && y != x
  {
    if s != [] {
      WithoutMembers(s[1..], x, y);
      assert s == [s[0]] + s[1..];
    }
  }

  /** What a context has queued, told from the calls of its code alone: `asked` are the account of the
      action and the recipients so far. */
  ghost predicate Gathered(p: Pending, asked: seq<Account>, es: seq<Effect>, ram: map<Account, int>, own: seq<Effect>) {
    && p.notified == FirstOnly(asked)
    && p.contextFree == ContextFreeOf(es) && p.inlines == InlinesOf(es)
    && forall a :: RamOf(p.ramDeltas, a) == RamOf(ram, a) + Sum(own, DeltaFor(a))
  }

  /** One call: let through exactly when allowed, and then it queues what it asks for. */
  lemma {:induction false} ApplyExactly(accounts: set<Account>, p: Pending, asked: seq<Account>, es: seq<Effect>,
                                        ram: map<Account, int>, own: seq<Effect>, e: Effect)
    requires Gathered(p, asked, es, ram, own)
    ensures Apply(accounts, p, e).Some? <==> Allowed(accounts, e)
    ensures Allowed(accounts, e) ==>
              Gathered(Apply(accounts, p, e).value, asked + RecipientsOf([e]), es + [e], ram, own + [e])
  {
    hide Sum, InlinesOf, ContextFreeOf, RecipientsOf, FirstOnly, RamOf, Bump;
    OneCall(e);
    InlinesAppend(es, [e]);
    ContextFreeAppend(es, [e]);
    if Allowed(accounts, e) {
      var q := Apply(accounts, p, e).value;
      forall a ensures RamOf(q.ramDeltas, a) == RamOf(ram, a) + Sum(own + [e], DeltaFor(a)) {
        SumAppend(own, [e], DeltaFor(a));
        SumOne(e, DeltaFor(a));
        if e.AddRamUsage? {
          BumpAt(p.ramDeltas, e.account, e.delta, a);
        }
      }
      if e.RequireRecipient? {
        FirstOnlyNext(asked, e.recipient);
        FirstOnlyMembers(asked, e.recipient);
      } else {
        assert asked + [] == asked;
      }
    }
  }

  /** All calls of one execution. */
  lemma {:induction false} ApplyAllExactly(accounts: set<Account>, p: Pending, asked: seq<Account>, es: seq<Effect>,
                                           ram: map<Account, int>, own: seq<Effect>, more: seq<Effect>)
    requires Gathered(p, asked, es, ram, own)
    ensures ApplyAll(accounts, p, more).Some? <==> AllAllowed(accounts, more)
    ensures AllAllowed(accounts, more) ==>
              Gathered(ApplyAll(accounts, p, more).value, asked + RecipientsOf(more), es + more, ram, own + more)
    decreases |more|
  {
    hide Gathered, Apply, Allowed, RecipientsOf;
    if more == [] {
      NoRecipients();
      assert asked + [] == asked && es + more == es && own + more == own;
    } else {
      var n := |more| - 1;
      var init, e := more[..n], more[n];
      assert more == init + [e];
      ApplyAllExactly(accounts, p, asked, es, ram, own, init);
      if AllAllowed(accounts, init) {
        var q := ApplyAll(accounts, p, init).value;
        ApplyExactly(accounts, q, asked + RecipientsOf(init), es + init, ram, own + init, e);
        RecipientsAppend(init, [e]);
        assert asked + RecipientsOf(init) + RecipientsOf([e]) == asked + RecipientsOf(more);
        assert es + init + [e] == es + more && own + init + [e] == own + more;
      }
    }
  }

  lemma {:induction false} NoRecipients()
    ensures RecipientsOf([]) == []
  {
  }
}
