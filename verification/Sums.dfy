/** Sums over sequences, and how they move when one element is inserted, removed or replaced. */
module Sums {

  function Sum<T>(s: seq<T>, f: T -> int): int {
    if s == [] then 0 else f(s[0]) + Sum(s[1..], f)
  }

  lemma {:induction false} SumAppend<T>(a: seq<T>, b: seq<T>, f: T -> int)
    ensures Sum(a + b, f) == Sum(a, f) + Sum(b, f)
  {
    if a == [] {
      assert a + b == b;
    } else {
      assert (a + b)[1..] == a[1..] + b;
      SumAppend(a[1..], b, f);
    }
  }

  lemma {:induction false} SumOne<T>(x: T, f: T -> int)
    ensures Sum([x], f) == f(x)
  {
    assert [x][1..] == [];
  }

  function InsertAt<T>(s: seq<T>, i: nat, x: T): seq<T>
    requires i <= |s|
  {
    s[..i] + [x] + s[i..]
  }

  function RemoveAt<T>(s: seq<T>, i: nat): seq<T>
    requires i < |s|
  {
    s[..i] + s[i + 1..]
  }

  lemma {:induction false} SumInsert<T>(s: seq<T>, i: nat, x: T, f: T -> int)
    requires i <= |s|
    ensures Sum(InsertAt(s, i, x), f) == Sum(s, f) + f(x)
  {
    SumAppend(s[..i] + [x], s[i..], f);
    SumAppend(s[..i], [x], f);
    SumOne(x, f);
    SumAppend(s[..i], s[i..], f);
    assert s == s[..i] + s[i..];
  }

  lemma {:induction false} SumRemove<T>(s: seq<T>, i: nat, f: T -> int)
    requires i < |s|
    ensures Sum(RemoveAt(s, i), f) == Sum(s, f) - f(s[i])
  {
    var r := RemoveAt(s, i);
    SumInsert(r, i, s[i], f);
    assert r[..i] == s[..i] && r[i..] == s[i + 1..];
    assert InsertAt(r, i, s[i]) == s;
  }

  lemma {:induction false} SumReplace<T>(s: seq<T>, i: nat, x: T, f: T -> int)
    requires i < |s|
    ensures Sum(s[i := x], f) == Sum(s, f) - f(s[i]) + f(x)
  {
    SumRemove(s, i, f);
    var r := RemoveAt(s, i);
    SumInsert(r, i, x, f);
    assert r[..i] == s[..i] && r[i..] == s[i + 1..];
    assert InsertAt(r, i, x) == s[i := x];
  }
}
