/** Token symbols: a number of decimals and a name of capital letters in one 64-bit value. */
module Symbols {
  import opened Basics
  import opened Bits
  import opened Decimal
  import opened Texts

  const MAX_PRECISION: nat := 18
  const MAX_LETTERS: nat := 7

  predicate Letter(c: char) {
    'A' <= c <= 'Z'
  }

  predicate Letters(s: string) {
    forall i | 0 <= i < |s| :: Letter(s[i])
  }

  /** Letters as base-256 digits, the first one lowest. */
  function Packed(s: string): nat {
    if s == "" then 0 else s[0] as int % 256 + 256 * Packed(s[1..])
  }

  function Unpacked(v: nat): string {
    if v == 0 then "" else [(v % 256) as char] + Unpacked(v / 256)
  }

  function Value64(decimals: nat, name: string): nat {
    256 * Packed(name) + decimals
  }

  function Decimals(value: nat): nat {
    value % 256
  }

  function NameOf(value: nat): string {
    Unpacked(value / 256)
  }

  predicate Valid(value: nat) {
    value < 0x1_0000_0000_0000_0000 && Decimals(value) <= MAX_PRECISION && Letters(NameOf(value))
  }

  /** The characters before the first null character. */
  function CString(s: string): string {
    s[..Find(s, '\0')]
  }

  function FromString(from: string): Option<nat> {
    var s := Trim(from);
    if s == "" then None
    else
      var comma := Find(s, ',');
      if comma == |s| then None
      else
        var precision :- ParseInt64(s[..comma]);
        var p := precision % 256;
        var name := CString(s[comma + 1..]);
        if p > MAX_PRECISION || !Letters(name) || |name| > MAX_LETTERS then None
        else Some(Value64(p, name))
  }

  /* ---------- the name in the value ---------- */

  lemma {:induction false} UnpackedPacked(s: string)
    requires Letters(s)
    ensures Unpacked(Packed(s)) == s
  {
    if s != "" {
      assert Letter(s[0]);
      assert Packed(s) == s[0] as int + 256 * Packed(s[1..]);
      hide Unpacked, Packed;
      UnpackedPacked(s[1..]);
      PushByte(s[0] as int, Packed(s[1..]));
    }
  }

  lemma {:induction false} PushByte(b: nat, v: nat)
    requires 0 < b < 256
    ensures Unpacked(b + 256 * v) == [b as char] + Unpacked(v)
  {
    assert (b + 256 * v) % 256 == b && (b + 256 * v) / 256 == v;
  }

  lemma {:induction false} PackedUnpacked(v: nat)
    ensures Packed(Unpacked(v)) == v
  {
    if v > 0 {
      PackedUnpacked(v / 256);
    }
  }

  lemma {:induction false} PackedAppend(s: string, c: char)
    ensures Packed(s + [c]) == Packed(s) + Shift(c as int % 256, 8 * |s|)
  {
    if s == "" {
      assert s + [c] == [c];
      assert Pow2(0) == 1;
      assert [c][1..] == "";
    } else {
      assert (s + [c])[1..] == s[1..] + [c];
      PackedAppend(s[1..], c);
      ShiftByte(c as int % 256, 8 * (|s| - 1));
    }
  }

  lemma {:induction false} Byte()
    ensures Pow2(8) == 256
  {
    assert Pow2(2) == 4;
    assert Pow2(4) == 4 * Pow2(2);
    assert Pow2(6) == 4 * Pow2(4);
    assert Pow2(8) == 4 * Pow2(6);
  }

  lemma {:induction false} ShiftByte(x: nat, n: nat)
    ensures 256 * Shift(x, n) == Shift(x, n + 8) && Pow2(n + 8) == 256 * Pow2(n)
  {
    hide Pow2;
    Byte();
    Pow2Add(8, n);
    assert 256 * (x * Pow2(n)) == x * (256 * Pow2(n));
  }

  lemma {:induction false} PackedBelow(s: string)
    ensures Packed(s) < Pow2(8 * |s|)
  {
    if s != "" {
      PackedBelow(s[1..]);
      ShiftByte(0, 8 * |s| - 8);
    }
  }

  /** A value within 8 bytes holds a name of at most seven letters. */
  lemma {:induction false} UnpackedLength(v: nat, n: nat)
    requires v < Pow2(8 * n)
    ensures |Unpacked(v)| <= n
  {
    if n > 0 && v > 0 {
      ShiftByte(0, 8 * n - 8);
      UnpackedLength(v / 256, n - 1);
    }
  }

  lemma {:induction false} SixtyFourBits()
    ensures Pow2(64) == 0x1_0000_0000_0000_0000 && Pow2(56) == 0x100_0000_0000_0000
  {
    hide Pow2;
    Byte();
    Pow2Add(8, 8);
    Pow2Add(16, 16);
    Pow2Add(32, 16);
    Pow2Add(48, 8);
    Pow2Add(56, 8);
  }

  lemma {:induction false} NameLength(value: nat)
    requires value < 0x1_0000_0000_0000_0000
    ensures |NameOf(value)| <= MAX_LETTERS
  {
    hide Pow2;
    SixtyFourBits();
    UnpackedLength(value / 256, 7);
  }

  /** Decimals and name determine the value, and the other way round. */
  lemma {:induction false} ValueParts(value: nat)
    ensures Value64(Decimals(value), NameOf(value)) == value
  {
    PackedUnpacked(value / 256);
  }

  lemma {:induction false} PartsOfValue(decimals: nat, name: string)
    requires decimals <= MAX_PRECISION && Letters(name) && |name| <= MAX_LETTERS
    ensures var v := Value64(decimals, name); Valid(v) && Decimals(v) == decimals && NameOf(v) == name
  {
    hide Pow2, Packed, Unpacked;
    UnpackedPacked(name);
    PackedBelow(name);
    SixtyFourBits();
    if |name| < 7 {
      Pow2Less(8 * |name|, 56);
    }
  }

  /* ---------- the loops ---------- */

  method Precision(value: nat) returns (r: Option<nat>)
    ensures r == if Decimals(value) <= MAX_PRECISION then Some(Pow10(Decimals(value))) else None
  {
    if Decimals(value) > MAX_PRECISION {
      return None;
    }
    var p10 := 1;
    var p := Decimals(value);
    while p > 0
      invariant 0 <= p <= Decimals(value) && p10 == Pow10(Decimals(value) - p)
    {
      p10 := p10 * 10;
      p := p - 1;
    }
    return Some(p10);
  }

  method Name(value: nat) returns (result: string)
    ensures result == NameOf(value)
  {
    var v: nat := value / 256;
    result := "";
    while v > 0
      invariant result + Unpacked(v) == NameOf(value)
    {
      AndByte(v);
      ghost var before := v;
      var c := And(v, 0xFF) as char;
      result := result + [c];
      v := v / 256;
      assert Unpacked(before) == [c] + Unpacked(v);
    }
  }

  lemma {:induction false} AndByte(v: nat)
    ensures And(v, 0xFF) == v % 256
  {
    hide Pow2;
    Byte();
    AndMask(v, 8);
  }

  method StringToSymbol(precision: nat, str: string) returns (r: Option<nat>)
    requires precision < 256
    ensures var name := CString(str);
            r == if Letters(name) && |name| <= MAX_LETTERS then Some(Value64(precision, name)) else None
  {
    var len := 0;
    while len < |str| && str[len] != '\0'
      invariant len <= |str| && forall i | 0 <= i < len :: str[i] != '\0'
    {
      len := len + 1;
    }
    FindIs(str, '\0', len);
    ghost var name := CString(str);
    var result := 0;
    var i := 0;
    while i < len
      invariant i <= len && i <= MAX_LETTERS
      invariant Letters(name[..i]) && result == 256 * Packed(name[..i])
    {
      if !Letter(str[i]) {
        return None;
      }
      if i == MAX_LETTERS {
        return None;
      }
      assert name[..i + 1] == name[..i] + [name[i]];
      AddLetter(name[..i], name[i]);
      result := Or(result, Shift(str[i] as int, 8 * (i + 1)));
      i := i + 1;
    }
    assert name[..len] == name;
    AddPrecision(Packed(name), precision);
    result := Or(result, precision);
    return Some(result);
  }

  lemma {:induction false} AddLetter(s: string, c: char)
    requires Letter(c)
    ensures Or(256 * Packed(s), Shift(c as int, 8 * (|s| + 1))) == 256 * Packed(s + [c])
  {
    hide Pow2, Or;
    PackedAppend(s, c);
    PackedBelow(s);
    var n := 8 * |s|;
    ShiftByte(c as int, n);
    OrDisjoint(c as int, 256 * Packed(s), n + 8);
    OrCommutes(256 * Packed(s), Shift(c as int, n + 8));
  }

  lemma {:induction false} AddPrecision(v: nat, p: nat)
    requires p < 256
    ensures Or(256 * v, p) == 256 * v + p
  {
    hide Pow2, Or;
    Byte();
    OrDisjoint(v, p, 8);
  }
}
