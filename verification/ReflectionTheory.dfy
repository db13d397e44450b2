/** What acceptance by the reflection check means, and which correct declarations it refuses. */
module ReflectionTheory {
  import opened ReflectionCheck

  predicate Plain(c: Input, x: string) {
    x !in c.ignored && x !in c.swapped
  }

  /** The names that are neither ignored nor swapped, in order. */
  function Kept(c: Input, xs: Names): Names {
    if xs == [] then []
    else
      var n := |xs| - 1;
      Kept(c, xs[..n]) + if Plain(c, xs[n]) then [xs[n]] else []
  }

  /** The two lists agree: nothing is missing, and the plain names stand in the same order. */
  ghost predicate Agrees(c: Input) {
    && multiset(c.fields) == multiset(c.reflected) + multiset(c.ignored)
    && (forall x <- c.swapped :: x in c.reflected)
    && Kept(c, c.fields) == Kept(c, c.reflected)
  }

  ghost predicate Distinct(xs: Names) {
    forall i, j | 0 <= i < j < |xs| :: xs[i] != xs[j]
  }

  /** What the reader of the declarations has already established. */
  ghost predicate Legit(c: Input) {
    && Distinct(c.fields) && Distinct(c.reflected) && Distinct(c.ignored) && Distinct(c.swapped)
    && (forall x <- c.swapped :: x !in c.ignored)
  }

  /** No swap can be dropped from the declaration. */
  ghost predicate Minimal(c: Input) {
    forall x <- c.swapped :: !Agrees(c.(swapped := Remove(c.swapped, x)))
  }

  /* ---------- small facts ---------- */

  /** How often y occurs. */
  function Count(xs: Names, y: string): nat {
    multiset(xs)[y]
  }

  function One(x: string, y: string): nat {
    if x == y then 1 else 0
  }

  lemma {:induction false} CountIn(xs: Names, y: string)
    ensures y in xs <==> Count(xs, y) > 0
  {
  }

  lemma {:induction false} CountConcat(xs: Names, ys: Names, y: string)
    ensures Count(xs + ys, y) == Count(xs, y) + Count(ys, y)
  {
  }

  lemma {:induction false} RemoveCounts(s: Names, x: string, y: string)
    requires x in s
    ensures Count(Remove(s, x), y) == Count(s, y) - One(x, y)
  {
    assert s == [s[0]] + s[1..];
    CountConcat([s[0]], s[1..], y);
    if s[0] != x {
      RemoveCounts(s[1..], x, y);
      CountConcat([s[0]], Remove(s[1..], x), y);
    }
  }

  lemma {:induction false} AppendCounts(s: Names, x: string, y: string)
    ensures Count(s + [x], y) == Count(s, y) + One(x, y)
  {
  }

  lemma {:induction false} PrefixCounts(xs: Names, i: nat, y: string)
    requires i < |xs|
    ensures Count(xs[..i + 1], y) == Count(xs[..i], y) + One(xs[i], y)
    ensures Count(xs[i..], y) == Count(xs[i + 1..], y) + One(xs[i], y)
  {
    assert xs[..i + 1] == xs[..i] + [xs[i]];
    assert xs[i..] == [xs[i]] + xs[i + 1..];
    CountConcat([xs[i]], xs[i + 1..], y);
    AppendCounts(xs[..i], xs[i], y);
  }

  lemma {:induction false} PrefixKept(c: Input, xs: Names, i: nat)
    requires i < |xs|
    ensures Kept(c, xs[..i + 1]) == Kept(c, xs[..i]) + if Plain(c, xs[i]) then [xs[i]] else []
  {
    assert xs[..i + 1][..i] == xs[..i];
  }

  lemma {:induction false} WholePrefix(xs: Names)
    ensures xs[..|xs|] == xs && xs[|xs|..] == [] && xs[..0] == [] && xs[0..] == xs
  {
  }

  /* ---------- soundness ---------- */

  /** Fields seen and names met early are the reflected names seen, those still due and the ignored. */
  ghost predicate CountedAt(c: Input, s: State, y: string)
    requires Within(c, s)
  {
    && Count(c.fields[..s.f], y) + Count(s.fwd, y)
       == Count(c.reflected[..s.r], y) + Count(s.back, y) + Count(s.done, y)
    && Count(s.ignored, y) + Count(s.done, y) == Count(c.ignored, y)
  }

  ghost predicate Counted(c: Input, s: State)
    requires Within(c, s)
  {
    forall y :: CountedAt(c, s, y)
  }

  ghost predicate Swaps(c: Input, s: State) {
    && (forall x <- s.swapped :: x in c.swapped)
    && (forall x <- s.back :: x in c.swapped)
    && (forall x <- s.fwd :: x in c.swapped)
    && (forall x <- c.swapped :: x in s.swapped || x in c.reflected)
  }

  /** What every step of the walk keeps. */
  ghost predicate Balanced(c: Input, s: State) {
    && Within(c, s)
    && Counted(c, s)
    && Swaps(c, s)
    && Kept(c, c.fields[..s.f]) == Kept(c, c.reflected[..s.r])
  }

  lemma {:induction false} CountedFor(c: Input, s: State, y: string)
    requires Within(c, s) && Counted(c, s)
    ensures CountedAt(c, s, y)
  {
  }

  lemma {:induction false} CountedAll(c: Input, s: State)
    requires Within(c, s) && forall y :: CountedAt(c, s, y)
    ensures Counted(c, s)
  {
  }

  lemma {:induction false} StartBalanced(c: Input)
    ensures Balanced(c, Start(c))
  {
    WholePrefix(c.fields);
    WholePrefix(c.reflected);
  }

  lemma {:induction false} IgnoredIn(c: Input, s: State, x: string)
    requires Balanced(c, s)
    ensures x in s.ignored || x in s.done ==> x in c.ignored
  {
    CountedFor(c, s, x);
    CountIn(s.ignored, x);
    CountIn(s.done, x);
    CountIn(c.ignored, x);
  }

  lemma {:induction false} RemovedIn(s: Names, x: string, y: string)
    ensures y in Remove(s, x) ==> y in s
    ensures y in s ==> y == x || y in Remove(s, x)
  {
    if s != [] && s[0] != x {
      RemovedIn(s[1..], x, y);
    }
  }

  lemma {:induction false} RemovedAll(s: Names, x: string)
    ensures forall y <- Remove(s, x) :: y in s
    ensures forall y <- s :: y == x || y in Remove(s, x)
  {
    forall y ensures y in Remove(s, x) ==> y in s
             ensures y in s ==> y == x || y in Remove(s, x) {
      RemovedIn(s, x, y);
    }
  }

  lemma {:induction false} BackStep(c: Input, s: State)
    requires Balanced(c, s) && s.f < |c.fields| && c.fields[s.f] in s.swapped && c.fields[s.f] in c.reflected
    ensures var x := c.fields[s.f];
            Balanced(c, s.(f := s.f + 1, swapped := Remove(s.swapped, x), back := s.back + [x]))
  {
    hide Remove, Count, Counted;
    var x := c.fields[s.f];
    var s' := s.(f := s.f + 1, swapped := Remove(s.swapped, x), back := s.back + [x]);
    PrefixKept(c, c.fields, s.f);
    forall y ensures CountedAt(c, s', y) {
      assert CountedAt(c, s, y) by {
        CountedFor(c, s, y);
      }
      PrefixCounts(c.fields, s.f, y);
      AppendCounts(s.back, x, y);
    }
    CountedAll(c, s');
    RemovedAll(s.swapped, x);
  }

  lemma {:induction false} ForwardStep(c: Input, s: State)
    requires Balanced(c, s) && s.r < |c.reflected| && c.reflected[s.r] in s.swapped
    ensures var x := c.reflected[s.r];
            Balanced(c, s.(r := s.r + 1, swapped := Remove(s.swapped, x), fwd := s.fwd + [x]))
  {
    hide Remove, Count, Counted;
    var x := c.reflected[s.r];
    var s' := s.(r := s.r + 1, swapped := Remove(s.swapped, x), fwd := s.fwd + [x]);
    PrefixKept(c, c.reflected, s.r);
    forall y ensures CountedAt(c, s', y) {
      assert CountedAt(c, s, y) by {
        CountedFor(c, s, y);
      }
      PrefixCounts(c.reflected, s.r, y);
      AppendCounts(s.fwd, x, y);
    }
    CountedAll(c, s');
    RemovedAll(s.swapped, x);
  }

  lemma {:induction false} IgnoreStep(c: Input, s: State)
    requires Balanced(c, s) && s.f < |c.fields| && c.fields[s.f] in s.ignored
    ensures var x := c.fields[s.f];
            Balanced(c, s.(f := s.f + 1, ignored := Remove(s.ignored, x), done := s.done + [x]))
  {
    hide Remove, Count, Counted;
    var x := c.fields[s.f];
    var s' := s.(f := s.f + 1, ignored := Remove(s.ignored, x), done := s.done + [x]);
    PrefixKept(c, c.fields, s.f);
    forall y ensures CountedAt(c, s', y) {
      assert CountedAt(c, s, y) by {
        CountedFor(c, s, y);
      }
      PrefixCounts(c.fields, s.f, y);
      AppendCounts(s.done, x, y);
      RemoveCounts(s.ignored, x, y);
    }
    CountedAll(c, s');
    IgnoredIn(c, s, x);
  }

  lemma {:induction false} BackMet(c: Input, s: State)
    requires Balanced(c, s) && s.r < |c.reflected| && c.reflected[s.r] in s.back
    ensures Balanced(c, s.(r := s.r + 1, back := Remove(s.back, c.reflected[s.r])))
  {
    hide Remove, Count, Counted;
    var x := c.reflected[s.r];
    var s' := s.(r := s.r + 1, back := Remove(s.back, x));
    PrefixKept(c, c.reflected, s.r);
    forall y ensures CountedAt(c, s', y) {
      assert CountedAt(c, s, y) by {
        CountedFor(c, s, y);
      }
      PrefixCounts(c.reflected, s.r, y);
      RemoveCounts(s.back, x, y);
    }
    CountedAll(c, s');
    RemovedAll(s.back, x);
  }

  lemma {:induction false} ForwardMet(c: Input, s: State)
    requires Balanced(c, s) && s.f < |c.fields| && c.fields[s.f] in s.fwd
    ensures Balanced(c, s.(f := s.f + 1, fwd := Remove(s.fwd, c.fields[s.f])))
  {
    hide Remove, Count, Counted;
    var x := c.fields[s.f];
    var s' := s.(f := s.f + 1, fwd := Remove(s.fwd, x));
    PrefixKept(c, c.fields, s.f);
    forall y ensures CountedAt(c, s', y) {
      assert CountedAt(c, s, y) by {
        CountedFor(c, s, y);
      }
      PrefixCounts(c.fields, s.f, y);
      RemoveCounts(s.fwd, x, y);
    }
    CountedAll(c, s');
    RemovedAll(s.fwd, x);
  }

  lemma {:induction false} SameStep(c: Input, s: State)
    requires Balanced(c, s) && s.f < |c.fields| && s.r < |c.reflected| && c.reflected[s.r] == c.fields[s.f]
    ensures Balanced(c, s.(f := s.f + 1, r := s.r + 1))
  {
    hide Remove, Count, Counted;
    var x := c.fields[s.f];
    var s' := s.(f := s.f + 1, r := s.r + 1);
    PrefixKept(c, c.fields, s.f);
    forall y ensures CountedAt(c, s', y) {
      assert CountedAt(c, s, y) by {
        CountedFor(c, s, y);
      }
      PrefixCounts(c.fields, s.f, y);
      PrefixCounts(c.reflected, s.r, y);
    }
    CountedAll(c, s');
    PrefixKept(c, c.reflected, s.r);
  }

  lemma {:induction false} SameCounts(xs: Names, ys: Names, zs: Names)
    requires forall y :: Count(xs, y) == Count(ys, y) + Count(zs, y)
    ensures multiset(xs) == multiset(ys) + multiset(zs)
  {
    forall y ensures multiset(xs)[y] == (multiset(ys) + multiset(zs))[y] {
      assert Count(xs, y) == Count(ys, y) + Count(zs, y);
    }
  }

  lemma {:induction false} DrainSound(c: Input, s: State)
    requires Balanced(c, s) && s.f == |c.fields| && s.ignored == []
    ensures Drain(c, s) == Accepted ==> Agrees(c)
    decreases |c.reflected| - s.r
  {
    hide Kept, Remove;
    if s.r < |c.reflected| {
      if c.reflected[s.r] in s.back {
        BackMet(c, s);
        DrainSound(c, s.(r := s.r + 1, back := Remove(s.back, c.reflected[s.r])));
      }
    } else if s.back == [] && s.fwd == [] {
      WholePrefix(c.fields);
      WholePrefix(c.reflected);
      forall y ensures Count(c.fields, y) == Count(c.reflected, y) + Count(c.ignored, y) {
        CountedFor(c, s, y);
      }
      SameCounts(c.fields, c.reflected, c.ignored);
    }
  }

  lemma {:induction false} WalkSound(c: Input, s: State)
    requires Balanced(c, s)
    ensures Walk(c, s) == Accepted ==> Agrees(c)
    decreases |c.fields| - s.f + |c.reflected| - s.r
  {
    hide Kept, Agrees, Remove, Drain;
    if s.f == |c.fields| {
      if s.ignored == [] {
        DrainSound(c, s);
      }
    } else {
      var x := c.fields[s.f];
      var more := s.r < |c.reflected|;
      if x in s.swapped {
        if x in c.reflected {
          BackStep(c, s);
          WalkSound(c, s.(f := s.f + 1, swapped := Remove(s.swapped, x), back := s.back + [x]));
        }
      } else if more && c.reflected[s.r] in s.swapped {
        var y := c.reflected[s.r];
        ForwardStep(c, s);
        WalkSound(c, s.(r := s.r + 1, swapped := Remove(s.swapped, y), fwd := s.fwd + [y]));
      } else if x in s.ignored {
        IgnoreStep(c, s);
        WalkSound(c, s.(f := s.f + 1, ignored := Remove(s.ignored, x), done := s.done + [x]));
      } else if more && c.reflected[s.r] in s.back {
        BackMet(c, s);
        WalkSound(c, s.(r := s.r + 1, back := Remove(s.back, c.reflected[s.r])));
      } else if x in s.fwd {
        ForwardMet(c, s);
        WalkSound(c, s.(f := s.f + 1, fwd := Remove(s.fwd, x)));
      } else if more && c.reflected[s.r] == x {
        SameStep(c, s);
        WalkSound(c, s.(f := s.f + 1, r := s.r + 1));
      }
    }
  }

  /**
    Acceptance means agreement, whatever the lists: the fields are exactly the reflected and the
    ignored ones, and the others come in the same order.
  */
  lemma {:induction false} AcceptedAgrees(c: Input)
    ensures Walk(c, Start(c)) == Accepted ==> Agrees(c)
  {
    hide Agrees, Balanced;
    StartBalanced(c);
    WalkSound(c, Start(c));
  }

  /* ---------- completeness ---------- */

  /** A correct declaration, on which the walk has not gone wrong so far. */
  ghost predicate Tracked(c: Input, s: State) {
    Legit(c) && Agrees(c) && Balanced(c, s) && OnTrack(c, s)
  }

  /** A swapped name is ahead in both lists, or in the one where it is due; an ignored one in the class. */
  ghost predicate OnTrackAt(c: Input, s: State, y: string)
    requires Within(c, s)
  {
    && (y in c.swapped ==>
          && Count(c.fields[s.f..], y) == Count(s.swapped, y) + Count(s.fwd, y)
          && Count(c.reflected[s.r..], y) == Count(s.swapped, y) + Count(s.back, y))
    && (y in c.ignored ==> Count(c.fields[s.f..], y) == Count(s.ignored, y))
  }

  ghost predicate OnTrack(c: Input, s: State) {
    Within(c, s) && forall y :: OnTrackAt(c, s, y)
  }

  lemma {:induction false} OnTrackFor(c: Input, s: State, y: string)
    requires OnTrack(c, s)
    ensures OnTrackAt(c, s, y)
  {
  }

  lemma {:induction false} OnTrackAll(c: Input, s: State)
    requires Within(c, s) && forall y :: OnTrackAt(c, s, y)
    ensures OnTrack(c, s)
  {
  }

  lemma {:induction false} DistinctCount(xs: Names, y: string)
    requires Distinct(xs)
    ensures Count(xs, y) <= 1
  {
    if xs != [] {
      DistinctCount(xs[1..], y);
      assert xs == [xs[0]] + xs[1..];
      CountConcat([xs[0]], xs[1..], y);
      CountIn(xs[1..], y);
    }
  }

  lemma {:induction false} AgreeingCounts(c: Input, y: string)
    requires Agrees(c)
    ensures Count(c.fields, y) == Count(c.reflected, y) + Count(c.ignored, y)
  {
    hide Kept;
    assert multiset(c.fields)[y] == (multiset(c.reflected) + multiset(c.ignored))[y];
  }

  /** In a correct declaration an ignored name is not reflected. */
  lemma {:induction false} IgnoredNotReflected(c: Input, y: string)
    requires Legit(c) && Agrees(c) && y in c.ignored
    ensures y !in c.reflected
  {
    hide Kept, Count, Agrees;
    AgreeingCounts(c, y);
    DistinctCount(c.fields, y);
    CountIn(c.ignored, y);
    CountIn(c.reflected, y);
  }

  lemma {:induction false} StartOnTrack(c: Input)
    requires Legit(c) && Agrees(c)
    ensures Tracked(c, Start(c))
  {
    var s := Start(c);
    StartBalanced(c);
    WholePrefix(c.fields);
    WholePrefix(c.reflected);
    forall y ensures OnTrackAt(c, s, y) {
      hide Kept;
      AgreeingCounts(c, y);
      DistinctCount(c.fields, y);
      DistinctCount(c.swapped, y);
      CountIn(c.ignored, y);
      CountIn(c.reflected, y);
      CountIn(c.swapped, y);
    }
  }

  lemma {:induction false} BackTrack(c: Input, s: State)
    requires Tracked(c, s) && s.f < |c.fields| && c.fields[s.f] in s.swapped
    ensures var x := c.fields[s.f];
            OnTrack(c, s.(f := s.f + 1, swapped := Remove(s.swapped, x), back := s.back + [x]))
  {
    hide Remove, Count, OnTrack, Balanced;
    SwapsIn(c, s);
    var x := c.fields[s.f];
    var s' := s.(f := s.f + 1, swapped := Remove(s.swapped, x), back := s.back + [x]);
    forall y ensures OnTrackAt(c, s', y) {
      OnTrackFor(c, s, y);
      PrefixCounts(c.fields, s.f, y);
      AppendCounts(s.back, x, y);
      RemoveCounts(s.swapped, x, y);
    }
    OnTrackAll(c, s');
  }

  lemma {:induction false} ForwardTrack(c: Input, s: State)
    requires Tracked(c, s) && s.r < |c.reflected| && c.reflected[s.r] in s.swapped
    ensures var x := c.reflected[s.r];
            OnTrack(c, s.(r := s.r + 1, swapped := Remove(s.swapped, x), fwd := s.fwd + [x]))
  {
    hide Remove, Count, OnTrack, Balanced;
    SwapsIn(c, s);
    var x := c.reflected[s.r];
    var s' := s.(r := s.r + 1, swapped := Remove(s.swapped, x), fwd := s.fwd + [x]);
    forall y ensures OnTrackAt(c, s', y) {
      OnTrackFor(c, s, y);
      PrefixCounts(c.reflected, s.r, y);
      AppendCounts(s.fwd, x, y);
      RemoveCounts(s.swapped, x, y);
    }
    OnTrackAll(c, s');
  }

  lemma {:induction false} IgnoreTrack(c: Input, s: State)
    requires Tracked(c, s) && s.f < |c.fields| && c.fields[s.f] in s.ignored
    ensures var x := c.fields[s.f];
            OnTrack(c, s.(f := s.f + 1, ignored := Remove(s.ignored, x), done := s.done + [x]))
  {
    hide Remove, Count, OnTrack, Balanced;
    SwapsIn(c, s);
    var x := c.fields[s.f];
    var s' := s.(f := s.f + 1, ignored := Remove(s.ignored, x), done := s.done + [x]);
    IgnoredIn(c, s, x);
    forall y ensures OnTrackAt(c, s', y) {
      OnTrackFor(c, s, y);
      PrefixCounts(c.fields, s.f, y);
      RemoveCounts(s.ignored, x, y);
    }
    OnTrackAll(c, s');
  }

  lemma {:induction false} BackMetTrack(c: Input, s: State)
    requires Tracked(c, s) && s.r < |c.reflected| && c.reflected[s.r] in s.back
    ensures var x := c.reflected[s.r];
            OnTrack(c, s.(r := s.r + 1, back := Remove(s.back, x)))
  {
    hide Remove, Count, OnTrack, Balanced;
    SwapsIn(c, s);
    var x := c.reflected[s.r];
    var s' := s.(r := s.r + 1, back := Remove(s.back, x));
    forall y ensures OnTrackAt(c, s', y) {
      OnTrackFor(c, s, y);
      PrefixCounts(c.reflected, s.r, y);
      RemoveCounts(s.back, x, y);
    }
    OnTrackAll(c, s');
  }

  lemma {:induction false} ForwardMetTrack(c: Input, s: State)
    requires Tracked(c, s) && s.f < |c.fields| && c.fields[s.f] in s.fwd
    ensures var x := c.fields[s.f];
            OnTrack(c, s.(f := s.f + 1, fwd := Remove(s.fwd, x)))
  {
    hide Remove, Count, OnTrack, Balanced;
    SwapsIn(c, s);
    var x := c.fields[s.f];
    var s' := s.(f := s.f + 1, fwd := Remove(s.fwd, x));
    forall y ensures OnTrackAt(c, s', y) {
      OnTrackFor(c, s, y);
      PrefixCounts(c.fields, s.f, y);
      RemoveCounts(s.fwd, x, y);
    }
    OnTrackAll(c, s');
  }

  lemma {:induction false} SameTrack(c: Input, s: State)
    requires Tracked(c, s) && s.f < |c.fields| && s.r < |c.reflected|
    requires c.reflected[s.r] == c.fields[s.f] && Plain(c, c.fields[s.f])
    ensures OnTrack(c, s.(f := s.f + 1, r := s.r + 1))
  {
    hide Count, OnTrack, Balanced;
    SwapsIn(c, s);
    var s' := s.(f := s.f + 1, r := s.r + 1);
    forall y ensures OnTrackAt(c, s', y) {
      OnTrackFor(c, s, y);
      PrefixCounts(c.fields, s.f, y);
      PrefixCounts(c.reflected, s.r, y);
    }
    OnTrackAll(c, s');
  }

  lemma {:induction false} SwapsIn(c: Input, s: State)
    requires Balanced(c, s)
    ensures Within(c, s) && Swaps(c, s)
  {
  }

  /** A field that is neither swapped, ignored nor due is plain. */
  lemma {:induction false} FieldIsPlain(c: Input, s: State)
    requires Tracked(c, s) && s.f < |c.fields|
    ensures var x := c.fields[s.f]; x !in s.swapped && x !in s.ignored && x !in s.fwd ==> Plain(c, x)
  {
    hide Count, OnTrack, Balanced, Agrees, Legit;
    var x := c.fields[s.f];
    OnTrackFor(c, s, x);
    PrefixCounts(c.fields, s.f, x);
    CountIn(s.swapped, x);
    CountIn(s.fwd, x);
    CountIn(s.ignored, x);
  }

  /** A reflected name that is neither swapped nor due is plain. */
  lemma {:induction false} ReflectedIsPlain(c: Input, s: State)
    requires Tracked(c, s) && s.r < |c.reflected|
    ensures var x := c.reflected[s.r]; x !in s.swapped && x !in s.back ==> Plain(c, x)
  {
    hide Count, OnTrack, Balanced, Agrees, Legit;
    var x := c.reflected[s.r];
    OnTrackFor(c, s, x);
    PrefixCounts(c.reflected, s.r, x);
    CountIn(s.swapped, x);
    CountIn(s.back, x);
    if x in c.ignored {
      IgnoredNotReflected(c, x);
    }
  }

  lemma {:induction false} KeptConcat(c: Input, xs: Names, ys: Names)
    ensures Kept(c, xs + ys) == Kept(c, xs) + Kept(c, ys)
  {
    if ys == [] {
      assert xs + ys == xs;
    } else {
      var n := |ys| - 1;
      KeptConcat(c, xs, ys[..n]);
      assert (xs + ys)[..|xs| + n] == xs + ys[..n];
    }
  }

  /** The kept names of a list: those before a plain name, that name, and the rest. */
  lemma {:induction false} KeptSplit(c: Input, xs: Names, i: nat)
    requires i < |xs|
    ensures Kept(c, xs) == Kept(c, xs[..i]) + (if Plain(c, xs[i]) then [xs[i]] else []) + Kept(c, xs[i + 1..])
  {
    PrefixKept(c, xs, i);
    assert xs == xs[..i + 1] + xs[i + 1..];
    KeptConcat(c, xs[..i + 1], xs[i + 1..]);
  }

  /** The next plain names agree. */
  lemma {:induction false} NextPlainAgree(c: Input, s: State)
    requires Tracked(c, s) && s.f < |c.fields| && Plain(c, c.fields[s.f])
    requires s.r < |c.reflected| ==> Plain(c, c.reflected[s.r])
    ensures s.r < |c.reflected| && c.reflected[s.r] == c.fields[s.f]
  {
    hide Kept;
    var before := Kept(c, c.fields[..s.f]);
    KeptSplit(c, c.fields, s.f);
    assert Kept(c, c.fields)[|before|] == c.fields[s.f];
    if s.r < |c.reflected| {
      KeptSplit(c, c.reflected, s.r);
      assert Kept(c, c.reflected)[|before|] == c.reflected[s.r];
    } else {
      WholePrefix(c.reflected);
    }
  }

  /** Names other than x are kept as before when x is no longer declared swapped. */
  lemma {:induction false} KeptWithout(c: Input, x: string, xs: Names)
    requires x !in xs
    ensures Kept(c.(swapped := Remove(c.swapped, x)), xs) == Kept(c, xs)
  {
    if xs != [] {
      var n := |xs| - 1;
      KeptWithout(c, x, xs[..n]);
      RemovedIn(c.swapped, x, xs[n]);
    }
  }

  /** Around a name that occurs once, the other names are kept as before. */
  lemma {:induction false} KeptAround(c: Input, xs: Names, i: nat)
    requires i < |xs| && Distinct(xs) && Distinct(c.swapped) && xs[i] in c.swapped && xs[i] !in c.ignored
    ensures Kept(c.(swapped := Remove(c.swapped, xs[i])), xs) == Kept(c, xs[..i]) + [xs[i]] + Kept(c, xs[i + 1..])
    ensures Kept(c, xs) == Kept(c, xs[..i]) + Kept(c, xs[i + 1..])
  {
    hide Kept, Remove, Count;
    var x := xs[i];
    var c' := c.(swapped := Remove(c.swapped, x));
    KeptSplit(c, xs, i);
    KeptSplit(c', xs, i);
    KeptWithout(c, x, xs[..i]);
    KeptWithout(c, x, xs[i + 1..]);
    DistinctCount(c.swapped, x);
    RemoveCounts(c.swapped, x, x);
    CountIn(Remove(c.swapped, x), x);
  }

  /** A swapped name that stands behind the same plain names in both lists need not be swapped. */
  lemma {:induction false} InPlaceNotMinimal(c: Input, s: State)
    requires Tracked(c, s) && s.f < |c.fields| && s.r < |c.reflected|
    requires c.fields[s.f] in s.swapped && c.reflected[s.r] == c.fields[s.f]
    ensures !Minimal(c)
  {
    hide Kept, Remove, Count;
    var x := c.fields[s.f];
    KeptAround(c, c.fields, s.f);
    KeptAround(c, c.reflected, s.r);
    RemovedAll(c.swapped, x);
    var before := Kept(c, c.fields[..s.f]);
    assert Kept(c, c.fields)[|before|..] == Kept(c, c.fields[s.f + 1..]);
    assert Kept(c, c.reflected)[|before|..] == Kept(c, c.reflected[s.r + 1..]);
    assert Agrees(c.(swapped := Remove(c.swapped, x)));
  }

  /** At the end of the class no swap or ignored name is left over. */
  lemma {:induction false} NothingLeft(c: Input, s: State)
    requires Tracked(c, s) && s.f == |c.fields|
    ensures s.swapped == [] && s.fwd == [] && s.ignored == []
    ensures s.r == |c.reflected| ==> s.back == []
  {
    SwapsIn(c, s);
    WholePrefix(c.fields);
    WholePrefix(c.reflected);
    hide Count, OnTrack, Balanced, Agrees, Legit;
    forall y ensures y !in s.swapped && y !in s.fwd && y !in s.ignored
             ensures s.r == |c.reflected| ==> y !in s.back {
      OnTrackFor(c, s, y);
      IgnoredIn(c, s, y);
      CountIn(s.swapped, y);
      CountIn(s.fwd, y);
      CountIn(s.ignored, y);
      CountIn(s.back, y);
      CountIn([], y);
    }
    Empty(s.swapped);
    Empty(s.fwd);
    Empty(s.ignored);
    Empty(s.back);
  }

  lemma {:induction false} Empty(xs: Names)
    ensures xs != [] ==> xs[0] in xs
  {
  }

  lemma {:induction false} DrainComplete(c: Input, s: State)
    requires Tracked(c, s) && s.f == |c.fields|
    ensures Drain(c, s) == Accepted
    decreases |c.reflected| - s.r
  {
    SwapsIn(c, s);
    NothingLeft(c, s);
    hide Kept, Remove, Count, OnTrack, Balanced, Agrees, Legit;
    if s.r < |c.reflected| {
      RestIsDue(c, s);
      BackMet(c, s);
      BackMetTrack(c, s);
      DrainComplete(c, s.(r := s.r + 1, back := Remove(s.back, c.reflected[s.r])));
    }
  }

  /** After the last field, a reflected name can only be one that is due. */
  lemma {:induction false} RestIsDue(c: Input, s: State)
    requires Tracked(c, s) && s.f == |c.fields| && s.r < |c.reflected|
    ensures c.reflected[s.r] in s.back
  {
    hide Kept, Count;
    NothingLeft(c, s);
    ReflectedIsPlain(c, s);
    KeptSplit(c, c.reflected, s.r);
    WholePrefix(c.fields);
  }

  /* ---------- one stride of the walk ---------- */

  /** At the heads of both lists stands the same swapped name, not met before. */
  predicate Stuck(c: Input, s: State)
    requires Within(c, s)
  {
    s.f < |c.fields| && s.r < |c.reflected| && c.fields[s.f] in s.swapped && c.reflected[s.r] == c.fields[s.f]
  }

  /** The walk moved on in the class over a name that is not plain, or in the reflection over one, or in
      both over the same plain name. It stays at an unmet swap in the reflection only to pass one in the class. */
  ghost predicate Moved(c: Input, s: State, s': State) {
    && Within(c, s) && Within(c, s') && s.f < |c.fields|
    && (forall x <- s'.swapped :: x in s.swapped)
    && (forall x <- s'.fwd :: x in s.fwd || (s'.r == s.r + 1 && x == c.reflected[s.r]))
    && var x := c.fields[s.f];
       || (&& s'.f == s.f + 1 && s'.r == s.r && !Plain(c, x)
           && (x in s.swapped || s.r == |c.reflected| || c.reflected[s.r] !in s.swapped))
       || (s'.f == s.f && s'.r == s.r + 1 && !Plain(c, c.reflected[s.r]) && x !in s.swapped)
       || (s'.f == s.f + 1 && s'.r == s.r + 1 && c.reflected[s.r] == x && Plain(c, x))
  }

  /** On a correct declaration the walk only stops where it is stuck. */
  lemma {:induction false} Stride(c: Input, s: State) returns (s': State)
    requires Tracked(c, s) && s.f < |c.fields| && !Stuck(c, s)
    ensures Tracked(c, s') && Moved(c, s, s') && Walk(c, s) == Walk(c, s')
  {
    SwapsIn(c, s);
    hide Kept, Agrees, Remove, Drain, Balanced, OnTrack, Legit, Count;
    var x := c.fields[s.f];
    var more := s.r < |c.reflected|;
    FieldIsPlain(c, s);
    if x in s.swapped {
      SwapsAreReflected(c, x);
      BackStep(c, s);
      BackTrack(c, s);
      RemovedAll(s.swapped, x);
      s' := s.(f := s.f + 1, swapped := Remove(s.swapped, x), back := s.back + [x]);
    } else if more && c.reflected[s.r] in s.swapped {
      var y := c.reflected[s.r];
      ForwardStep(c, s);
      ForwardTrack(c, s);
      RemovedAll(s.swapped, y);
      s' := s.(r := s.r + 1, swapped := Remove(s.swapped, y), fwd := s.fwd + [y]);
    } else {
      s' := QuietStride(c, s);
    }
  }

  /** A stride where neither head is an unmet swap. */
  lemma {:induction false} QuietStride(c: Input, s: State) returns (s': State)
    requires Tracked(c, s) && s.f < |c.fields| && c.fields[s.f] !in s.swapped
    requires s.r < |c.reflected| ==> c.reflected[s.r] !in s.swapped
    ensures Tracked(c, s') && Moved(c, s, s') && Walk(c, s) == Walk(c, s')
  {
    SwapsIn(c, s);
    hide Kept, Agrees, Remove, Drain, Balanced, OnTrack, Legit, Count;
    var x := c.fields[s.f];
    var more := s.r < |c.reflected|;
    FieldIsPlain(c, s);
    NotIgnored(c, s);
    if x in s.ignored {
      IgnoredIn(c, s, x);
      IgnoreStep(c, s);
      IgnoreTrack(c, s);
      s' := s.(f := s.f + 1, ignored := Remove(s.ignored, x), done := s.done + [x]);
    } else if more && c.reflected[s.r] in s.back {
      BackMet(c, s);
      BackMetTrack(c, s);
      s' := s.(r := s.r + 1, back := Remove(s.back, c.reflected[s.r]));
    } else if x in s.fwd {
      ForwardMet(c, s);
      ForwardMetTrack(c, s);
      RemovedAll(s.fwd, x);
      s' := s.(f := s.f + 1, fwd := Remove(s.fwd, x));
    } else {
      if more {
        ReflectedIsPlain(c, s);
      }
      NextPlainAgree(c, s);
      SameStep(c, s);
      SameTrack(c, s);
      s' := s.(f := s.f + 1, r := s.r + 1);
    }
  }

  /* ---------- which correct declarations are refused ---------- */

  /** A block starts at `i` in the class and at `j` in the reflection: both follow the same plain names. */
  predicate BlockAt(c: Input, i: nat, j: nat) {
    && i <= |c.fields| && j <= |c.reflected|
    && (i == 0 || Plain(c, c.fields[i - 1]))
    && (j == 0 || Plain(c, c.reflected[j - 1]))
    && Kept(c, c.fields[..i]) == Kept(c, c.reflected[..j])
  }

  /** From `i` to `k` the class lists only swapped names that the reflection has not listed before `j`. */
  predicate SwappedRun(c: Input, i: nat, k: nat, j: nat)
    requires k <= |c.fields| && j <= |c.reflected|
  {
    forall m | i <= m < k :: c.fields[m] in c.swapped && c.fields[m] !in c.reflected[..j]
  }

  /** A swapped name opens a block of the reflection and stands in the same block of the class, after
      nothing but other swapped names that the reflection lists later. */
  predicate StandsInPlace(c: Input, i: nat, k: nat, j: nat) {
    && i <= k < |c.fields| && j < |c.reflected|
    && c.fields[k] == c.reflected[j] && c.fields[k] in c.swapped
    && BlockAt(c, i, j) && SwappedRun(c, i, k, j)
  }

  ghost predicate InPlace(c: Input) {
    exists i: nat, k: nat, j: nat :: StandsInPlace(c, i, k, j)
  }

  /** Since the start of the block at `i` the walk has only passed swapped names of the class. */
  ghost predicate Opening(c: Input, s: State, i: nat) {
    i <= s.f && Within(c, s) && BlockAt(c, i, s.r) && SwappedRun(c, i, s.f, s.r)
  }

  /** At most one of the two heads is a swapped name not met before. */
  ghost predicate Settled(c: Input, s: State) {
    Within(c, s) && (s.f < |c.fields| && s.r < |c.reflected| ==>
                       c.fields[s.f] !in s.swapped || c.reflected[s.r] !in s.swapped)
  }

  lemma {:induction false} UnmetNotSeen(c: Input, s: State, x: string)
    requires Tracked(c, s) && x in s.swapped
    ensures x in c.swapped && x !in c.reflected[..s.r]
  {
    SwapsIn(c, s);
    hide Count, OnTrack, Balanced, Agrees, Kept;
    OnTrackFor(c, s, x);
    DistinctCount(c.reflected, x);
    assert c.reflected == c.reflected[..s.r] + c.reflected[s.r..];
    CountConcat(c.reflected[..s.r], c.reflected[s.r..], x);
    CountIn(s.swapped, x);
    CountIn(c.reflected[..s.r], x);
  }

  /** Both heads can be unmet swaps only while a block opens. */
  lemma {:induction false} OpeningOrSettled(c: Input, s: State, s': State, i: nat)
    requires Tracked(c, s) && Tracked(c, s') && Moved(c, s, s') && (Opening(c, s, i) || Settled(c, s))
    ensures Opening(c, s', i) || Opening(c, s', s'.f) || Settled(c, s')
  {
    hide Kept, Agrees, OnTrack, Legit, Plain;
    var x := c.fields[s.f];
    if s'.f == s.f + 1 && s'.r == s.r + 1 {
      assert Opening(c, s', s'.f);
    } else if !Settled(c, s) && s'.f == s.f + 1 {
      UnmetNotSeen(c, s, x);
      assert Opening(c, s', i);
    }
  }

  lemma {:induction false} WalkComplete(c: Input, s: State, i: nat)
    requires Tracked(c, s) && (Opening(c, s, i) || Settled(c, s))
    ensures Walk(c, s) == Accepted || (Walk(c, s) == SwapInPlace && InPlace(c) && !Minimal(c))
    decreases |c.fields| - s.f + |c.reflected| - s.r
  {
    SwapsIn(c, s);
    hide Kept, Agrees, Drain, Balanced, OnTrack, Minimal, Legit, Count, Remove;
    if s.f == |c.fields| {
      NothingLeft(c, s);
      DrainComplete(c, s);
    } else if Stuck(c, s) {
      SwapsAreReflected(c, c.fields[s.f]);
      InPlaceNotMinimal(c, s);
      assert StandsInPlace(c, i, s.f, s.r);
    } else {
      var s' := Stride(c, s);
      hide Walk;
      OpeningOrSettled(c, s, s', i);
      WalkComplete(c, s', if Opening(c, s', i) then i else s'.f);
    }
  }

  /** Names met early have been listed by the reflection. */
  ghost predicate Met(c: Input, s: State) {
    Within(c, s) && forall x <- s.fwd :: x in c.reflected[..s.r]
  }

  lemma {:induction false} MetNext(c: Input, s: State, s': State)
    requires Met(c, s) && Moved(c, s, s')
    ensures Met(c, s')
  {
    hide Plain;
    assert s'.r == s.r + 1 ==> c.reflected[..s'.r] == c.reflected[..s.r] + [c.reflected[s.r]];
  }

  /** A swapped name ahead in the class, not listed by the reflection yet, is unmet. */
  lemma {:induction false} AheadIsUnmet(c: Input, s: State)
    requires Tracked(c, s) && Met(c, s) && s.f < |c.fields|
    requires c.fields[s.f] in c.swapped && c.fields[s.f] !in c.reflected[..s.r]
    ensures c.fields[s.f] in s.swapped
  {
    hide Count, OnTrack, Balanced, Agrees, Legit;
    var x := c.fields[s.f];
    OnTrackFor(c, s, x);
    PrefixCounts(c.fields, s.f, x);
    CountIn(s.swapped, x);
    CountIn(s.fwd, x);
  }

  /** From the start of its block, the walk runs into a name that stands in place. */
  lemma {:induction false} BlockRefuses(c: Input, s: State, i: nat, k: nat, j: nat)
    requires Tracked(c, s) && Met(c, s) && StandsInPlace(c, i, k, j) && i <= s.f <= k && s.r == j
    ensures Walk(c, s) == SwapInPlace
    decreases k - s.f
  {
    hide Kept, Agrees, Balanced, OnTrack, Drain, Remove, Count, Plain, BlockAt;
    var x := c.fields[s.f];
    if s.f == k {
      NotBefore(c.reflected, j);
    }
    AheadIsUnmet(c, s);
    SwapsAreReflected(c, x);
    if s.f < k {
      assert x != c.fields[k];
      var s' := Stride(c, s);
      MetNext(c, s, s');
      SwappedNotPlain(c, x);
      hide Walk;
      BlockRefuses(c, s', i, k, j);
    }
  }

  lemma {:induction false} NotBefore(xs: Names, j: nat)
    requires Distinct(xs) && j < |xs|
    ensures xs[j] !in xs[..j]
  {
  }

  lemma {:induction false} SwappedNotPlain(c: Input, x: string)
    requires x in c.swapped
    ensures !Plain(c, x)
  {
  }

  /** A block starts in both lists right after the same plain name. */
  lemma {:induction false} BlockFollows(c: Input, i: nat, j: nat)
    requires BlockAt(c, i, j)
    ensures i == 0 <==> j == 0
    ensures i > 0 ==> c.fields[i - 1] == c.reflected[j - 1] && Plain(c, c.fields[i - 1])
  {
    WholePrefix(c.fields);
    WholePrefix(c.reflected);
    if i > 0 {
      PrefixKept(c, c.fields, i - 1);
    }
    if j > 0 {
      PrefixKept(c, c.reflected, j - 1);
    }
    assert Kept(c, []) == [];
    hide Kept;
    if i > 0 && j > 0 {
      var ks := Kept(c, c.fields[..i]);
      assert ks[|ks| - 1] == c.fields[i - 1];
      assert ks[|ks| - 1] == c.reflected[j - 1];
    }
  }

  /** The walk comes through the start of every block. */
  lemma {:induction false} ReachesBlock(c: Input, s: State, i: nat, k: nat, j: nat)
    requires Tracked(c, s) && Met(c, s) && StandsInPlace(c, i, k, j)
    requires (s.f < i && s.r < j) || (s.f == i && s.r == j)
    ensures Walk(c, s) == SwapInPlace
    decreases |c.fields| - s.f + |c.reflected| - s.r
  {
    hide Kept, Agrees, Balanced, OnTrack, Drain, Remove, Count, Plain, BlockAt, SwappedRun;
    if s.f == i {
      BlockRefuses(c, s, i, k, j);
    } else if Stuck(c, s) {
      SwapsIn(c, s);
      SwapsAreReflected(c, c.fields[s.f]);
    } else {
      BlockFollows(c, i, j);
      var s' := Stride(c, s);
      hide Walk;
      MetNext(c, s, s');
      SameOnlyTogether(c, s.f, s.r, i - 1, j - 1);
      ReachesBlock(c, s', i, k, j);
    }
  }

  /** In lists without repetition a name occurs in one place each. */
  lemma {:induction false} SameOnlyTogether(c: Input, f: nat, r: nat, i: nat, j: nat)
    requires Distinct(c.fields) && Distinct(c.reflected) && i < |c.fields| && j < |c.reflected| && c.fields[i] == c.reflected[j]
    ensures f < |c.fields| && r < |c.reflected| && c.fields[f] == c.reflected[r] ==> (f == i <==> r == j)
  {
  }

  lemma {:induction false} SwapsAreReflected(c: Input, x: string)
    requires Agrees(c) && x in c.swapped
    ensures x in c.reflected
  {
  }

  lemma {:induction false} NotIgnored(c: Input, s: State)
    requires Tracked(c, s)
    ensures s.r < |c.reflected| ==> c.reflected[s.r] !in s.done && c.reflected[s.r] !in s.ignored
  {
    hide Kept, Agrees, Balanced, OnTrack, Legit;
    SwapsIn(c, s);
    if s.r < |c.reflected| {
      var y := c.reflected[s.r];
      IgnoredIn(c, s, y);
      if y in c.ignored {
        IgnoredNotReflected(c, y);
      }
    }
  }

  /**
    A correct declaration is accepted if and only if no swapped name stands in place. When one does, some
    swap can be dropped from the declaration; one whose swaps are all needed is always accepted.
  */
  lemma {:induction false} CorrectIsAccepted(c: Input)
    requires Legit(c) && Agrees(c)
    ensures Walk(c, Start(c)) == Accepted <==> !InPlace(c)
    ensures Walk(c, Start(c)) == SwapInPlace <==> InPlace(c)
    ensures InPlace(c) ==> !Minimal(c)
  {
    WholePrefix(c.fields);
    WholePrefix(c.reflected);
    var s := Start(c);
    assert Opening(c, s, 0);
    hide Agrees, Balanced, OnTrack, Minimal, Legit, StandsInPlace, Opening;
    StartOnTrack(c);
    WalkComplete(c, s, 0);
    if InPlace(c) {
      var i: nat, k: nat, j: nat :| StandsInPlace(c, i, k, j);
      PlaceIsBlock(c, i, k, j);
      BlockFollows(c, i, j);
      ReachesBlock(c, s, i, k, j);
    }
  }

  lemma {:induction false} PlaceIsBlock(c: Input, i: nat, k: nat, j: nat)
    requires StandsInPlace(c, i, k, j)
    ensures BlockAt(c, i, j)
  {
  }

  /** The check accepts exactly the declarations that agree and have no swap in place. */
  lemma {:induction false} AcceptedExactly(c: Input)
    requires Legit(c)
    ensures Walk(c, Start(c)) == Accepted <==> Agrees(c) && !InPlace(c)
  {
    hide Agrees, Legit, Walk, InPlace;
    AcceptedAgrees(c);
    if Agrees(c) {
      CorrectIsAccepted(c);
    }
  }

  /** A correct declaration can be refused: one field, reflected where it is, and declared swapped. */
  lemma {:induction false} CorrectRefused(a: string)
    ensures var c := Input([a], [a], [], [a]);
            Legit(c) && Agrees(c) && InPlace(c) && Walk(c, Start(c)) == SwapInPlace
  {
    var c := Input([a], [a], [], [a]);
    KeptOne(c, a);
    assert c.fields[..0] == [] && c.reflected[..0] == [];
    assert StandsInPlace(c, 0, 0, 0);
  }

  /** Without swaps the check decides agreement exactly. */
  lemma {:induction false} ExactWithoutSwaps(c: Input)
    requires Legit(c) && c.swapped == []
    ensures Walk(c, Start(c)) == Accepted <==> Agrees(c)
  {
    hide Agrees, Legit, Walk;
    AcceptedExactly(c);
  }

  lemma {:induction false} NeedlessRun(a: string, p: string, b: string)
    requires a != p && a != b && p != b
    ensures var c := Input([a, p, b], [p, a, b], [], [a, b]); Walk(c, Start(c)) == Accepted
  {
    var c := Input([a, p, b], [p, a, b], [], [a, b]);
    assert Drain(c, State(3, 3, [], [], [], [], [])) == Accepted;
    assert Drain(c, State(3, 2, [], [], [b], [], [])) == Accepted;
    assert Remove([a, b], a) == [b];
    assert Drain(c, State(3, 1, [], [], [a, b], [], [])) == Accepted;
    assert Walk(c, State(3, 1, [], [], [a, b], [], [])) == Accepted;
    assert Walk(c, State(2, 1, [], [b], [a], [], [])) == Accepted;
    assert Walk(c, State(1, 0, [], [b], [a], [], [])) == Accepted;
    assert [] + [a] == [a];
    assert Start(c).(f := 1, swapped := Remove([a, b], a), back := [] + [a]) == State(1, 0, [], [b], [a], [], []);
  }

  lemma {:induction false} NeedlessAgrees(a: string, p: string, b: string)
    requires a != p && a != b && p != b
    ensures Agrees(Input([a, p, b], [p, a, b], [], [a]))
  {
    var c := Input([a, p, b], [p, a, b], [], [a]);
    KeptThree(c, a, p, b);
    KeptThree(c, p, a, b);
    hide Kept;
    assert multiset(c.fields) == multiset{a, p, b} == multiset(c.reflected);
  }

  lemma {:induction false} KeptThree(c: Input, x: string, y: string, z: string)
    ensures Kept(c, [x, y, z]) == (if Plain(c, x) then [x] else []) + (if Plain(c, y) then [y] else [])
                                  + if Plain(c, z) then [z] else []
  {
    hide Kept;
    assert [x, y, z] == [x] + [y] + [z];
    KeptConcat(c, [x] + [y], [z]);
    KeptConcat(c, [x], [y]);
    KeptOne(c, x);
    KeptOne(c, y);
    KeptOne(c, z);
  }

  lemma {:induction false} KeptOne(c: Input, x: string)
    ensures Kept(c, [x]) == if Plain(c, x) then [x] else []
  {
    assert [x][..0] == [];
    assert Kept(c, []) == [];
  }

  /** A swap that is not needed can go unnoticed: here b is in its place in both lists. */
  lemma {:induction false} NeedlessSwapAccepted(a: string, p: string, b: string)
    requires a != p && a != b && p != b
    ensures var c := Input([a, p, b], [p, a, b], [], [a, b]);
            Legit(c) && Walk(c, Start(c)) == Accepted && !Minimal(c)
  {
    hide Walk, Agrees;
    var c := Input([a, p, b], [p, a, b], [], [a, b]);
    NeedlessRun(a, p, b);
    NeedlessAgrees(a, p, b);
    assert Remove([b], b) == [];
    assert Remove(c.swapped, b) == [a];
    assert b in c.swapped;
  }
}
