/** The check that a class's field list and its reflected field list agree. */
module ReflectionCheck {

  type Names = seq<string>

  /** A class's fields, the reflected fields, and the names declared ignored and swapped. */
  datatype Input = Input(fields: Names, reflected: Names, ignored: Names, swapped: Names)

  /** Positions in the two lists, the ignored and swapped names not met yet, and the pending ones. */
  datatype State = State(f: nat, r: nat, ignored: Names, swapped: Names, back: Names, fwd: Names, done: Names)

  datatype Outcome =
    | Accepted
    | SwapNotReflected
    | SwapInPlace
    | IgnoredIsReflected
    | IgnoreInPlace
    | WrongField
    | UnusedIgnores
    | UnknownFields
    | UnusedSwaps
    | SwapNeverProvided
    | SwapNotInClass

  /** Without the first occurrence of x. */
  function Remove(s: Names, x: string): Names {
    if s == [] then [] else if s[0] == x then s[1..] else [s[0]] + Remove(s[1..], x)
  }

  /** An object of the database has an `id` that need not be reflected. */
  function IgnoredNames(reflected: Names, ignored: Names, isObject: bool): Names {
    if isObject && "id" !in ignored && "id" !in reflected then ignored + ["id"] else ignored
  }

  predicate Within(c: Input, s: State) {
    s.f <= |c.fields| && s.r <= |c.reflected|
  }

  function Start(c: Input): State {
    State(0, 0, c.ignored, c.swapped, [], [], [])
  }

  /** The walk over the two lists. */
  function Walk(c: Input, s: State): Outcome
    requires Within(c, s)
    decreases |c.fields| - s.f + |c.reflected| - s.r
  {
    if s.f == |c.fields| then
      if s.ignored != [] then UnusedIgnores else Drain(c, s)
    else
      var field := c.fields[s.f];
      var more := s.r < |c.reflected|;
      if field in s.swapped then
        if field !in c.reflected then SwapNotReflected
        else if more && c.reflected[s.r] == field then SwapInPlace
        else Walk(c, s.(f := s.f + 1, swapped := Remove(s.swapped, field), back := s.back + [field]))
      else if more && c.reflected[s.r] in s.swapped then
        Walk(c, s.(r := s.r + 1, swapped := Remove(s.swapped, c.reflected[s.r]), fwd := s.fwd + [c.reflected[s.r]]))
      else if more && c.reflected[s.r] in s.done then IgnoredIsReflected
      else if field in s.ignored then
        if more && c.reflected[s.r] == field then IgnoreInPlace
        else Walk(c, s.(f := s.f + 1, ignored := Remove(s.ignored, field), done := s.done + [field]))
      else if more && c.reflected[s.r] in s.back then
        Walk(c, s.(r := s.r + 1, back := Remove(s.back, c.reflected[s.r])))
      else if field in s.fwd then
        Walk(c, s.(f := s.f + 1, fwd := Remove(s.fwd, field)))
      else if !more || c.reflected[s.r] != field then WrongField
      else Walk(c, s.(f := s.f + 1, r := s.r + 1))
  }

  /** What remains reflected must be pending; then nothing may be pending. */
  function Drain(c: Input, s: State): Outcome
    requires Within(c, s)
    decreases |c.reflected| - s.r
  {
    if s.r < |c.reflected| then
      if c.reflected[s.r] in s.back then Drain(c, s.(r := s.r + 1, back := Remove(s.back, c.reflected[s.r])))
      else UnknownFields
    else if s.swapped != [] then UnusedSwaps
    else if s.back != [] then SwapNeverProvided
    else if s.fwd != [] then SwapNotInClass
    else Accepted
  }

  /** The check, as the two loops run it. */
  method Validate(fields: Names, reflected: Names, declared: Names, swaps: Names, isObject: bool) returns (o: Outcome)
    ensures var c := Input(fields, reflected, IgnoredNames(reflected, declared, isObject), swaps);
            o == Walk(c, Start(c))
  {
    var ignored, swapped := declared, swaps;
    if isObject {
      if "id" !in ignored && "id" !in reflected {
        ignored := ignored + ["id"];
      }
    }
    ghost var c := Input(fields, reflected, ignored, swaps);
    hide Remove;
    var r := 0;
    var back: Names, fwd: Names, done: Names := [], [], [];
    var f := 0;
    while f < |fields|
      invariant f <= |fields| && r <= |reflected|
      invariant Walk(c, State(f, r, ignored, swapped, back, fwd, done)) == Walk(c, Start(c))
      decreases |fields| - f + |reflected| - r
    {
      var field := fields[f];
      var more := r < |reflected|;
      if field in swapped {
        if field !in reflected {
          return SwapNotReflected;
        }
        if more && reflected[r] == field {
          return SwapInPlace;
        }
        swapped := Remove(swapped, field);
        back := back + [field];
        f := f + 1;
        continue;
      }
      if more && reflected[r] in swapped {
        swapped := Remove(swapped, reflected[r]);
        fwd := fwd + [reflected[r]];
        r := r + 1;
        continue;
      }
      if more && reflected[r] in done {
        return IgnoredIsReflected;
      }
      if field in ignored {
        if more && reflected[r] == field {
          return IgnoreInPlace;
        }
        ignored := Remove(ignored, field);
        done := done + [field];
        f := f + 1;
        continue;
      }
      if more && reflected[r] in back {
        back := Remove(back, reflected[r]);
        r := r + 1;
      } else if field in fwd {
        fwd := Remove(fwd, field);
        f := f + 1;
      } else {
        if !more || reflected[r] != field {
          return WrongField;
        }
        f := f + 1;
        r := r + 1;
      }
    }
    if ignored != [] {
      return UnusedIgnores;
    }
    var unused: Names := [];
    while r < |reflected|
      invariant r <= |reflected|
      invariant Walk(c, Start(c))
                == if unused == [] then Drain(c, State(f, r, ignored, swapped, back, fwd, done)) else UnknownFields
    {
      if reflected[r] in back {
        back := Remove(back, reflected[r]);
      } else {
        unused := unused + [reflected[r]];
      }
      r := r + 1;
    }
    if unused != [] {
      return UnknownFields;
    }
    if swapped != [] {
      return UnusedSwaps;
    }
    if back != [] {
      return SwapNeverProvided;
    }
    if fwd != [] {
      return SwapNotInClass;
    }
    return Accepted;
  }
}
