/** Trimming and searching of text. */
module Texts {

  predicate IsSpace(c: char) {
    c == ' ' || '\t' <= c <= '\r'
  }

  predicate Blank(s: string) {
    forall i | 0 <= i < |s| :: IsSpace(s[i])
  }

  function TrimLeft(s: string): string {
    if s != "" && IsSpace(s[0]) then TrimLeft(s[1..]) else s
  }

  function TrimRight(s: string): string {
    if s != "" && IsSpace(s[|s| - 1]) then TrimRight(s[..|s| - 1]) else s
  }

  function Trim(s: string): string {
    TrimRight(TrimLeft(s))
  }

  /** Where c first occurs, or the length of s. */
  function Find(s: string, c: char): (i: nat)
    ensures i <= |s| && c !in s[..i] && (i < |s| ==> s[i] == c)
  {
    if s == "" || s[0] == c then 0
    else
      var i := 1 + Find(s[1..], c);
      assert s[..i] == [s[0]] + s[1..][..i - 1];
      i
  }

  lemma {:induction false} FindIs(s: string, c: char, n: nat)
    requires n <= |s| && (forall i | 0 <= i < n :: s[i] != c) && (n < |s| ==> s[n] == c)
    ensures Find(s, c) == n
  {
    if n > 0 {
      FindIs(s[1..], c, n - 1);
    }
  }

  lemma {:induction false} FindAt(s: string, c: char, t: string)
    requires c !in s
    ensures Find(s + [c] + t, c) == |s| && Find(s, c) == |s|
  {
    FindIs(s + [c] + t, c, |s|);
    FindIs(s, c, |s|);
  }

  lemma {:induction false} TrimLeftPadded(lead: string, core: string)
    requires Blank(lead) && (core != "" ==> !IsSpace(core[0]))
    ensures TrimLeft(lead + core) == core
  {
    if lead == "" {
      assert lead + core == core;
    } else {
      assert (lead + core)[1..] == lead[1..] + core;
      TrimLeftPadded(lead[1..], core);
    }
  }

  lemma {:induction false} TrimRightPadded(core: string, trail: string)
    requires Blank(trail) && (core != "" ==> !IsSpace(core[|core| - 1]))
    ensures TrimRight(core + trail) == core
  {
    if trail == "" {
      assert core + trail == core;
    } else {
      var n := |trail| - 1;
      assert (core + trail)[..|core| + n] == core + trail[..n];
      TrimRightPadded(core, trail[..n]);
    }
  }

  lemma {:induction false} TrimPadded(lead: string, core: string, trail: string)
    requires Blank(lead) && Blank(trail) && core != "" && !IsSpace(core[0]) && !IsSpace(core[|core| - 1])
    ensures Trim(lead + core + trail) == core
  {
    assert lead + core + trail == lead + (core + trail);
    TrimLeftPadded(lead, core + trail);
    TrimRightPadded(core, trail);
  }

  lemma {:induction false} TrimLeftSplit(s: string) returns (lead: string)
    ensures Blank(lead) && s == lead + TrimLeft(s) && (TrimLeft(s) != "" ==> !IsSpace(TrimLeft(s)[0]))
  {
    if s != "" && IsSpace(s[0]) {
      var rest := TrimLeftSplit(s[1..]);
      lead := [s[0]] + rest;
    } else {
      lead := "";
    }
  }

  lemma {:induction false} TrimRightSplit(s: string) returns (trail: string)
    ensures var t := TrimRight(s);
            Blank(trail) && s == t + trail && (t != "" ==> t[0] == s[0] && !IsSpace(t[|t| - 1]))
  {
    var n := |s| - 1;
    if s != "" && IsSpace(s[n]) {
      var rest := TrimRightSplit(s[..n]);
      trail := rest + [s[n]];
    } else {
      trail := "";
    }
  }

  /** Trimming takes white space off both ends and leaves none there. */
  lemma {:induction false} TrimSplit(s: string) returns (lead: string, trail: string)
    ensures var t := Trim(s);
            && Blank(lead) && Blank(trail) && s == lead + t + trail
            && (t != "" ==> !IsSpace(t[0]) && !IsSpace(t[|t| - 1]))
  {
    lead := TrimLeftSplit(s);
    trail := TrimRightSplit(TrimLeft(s));
    assert lead + Trim(s) + trail == lead + (Trim(s) + trail);
  }
}
