/** Amounts of a token, written as text and read back. */
module Assets {
  import opened Basics
  import opened Bits
  import opened Decimal
  import opened Texts
  import Symbols

  const MAX_AMOUNT: int := 0x3FFF_FFFF_FFFF_FFFF

  datatype Asset = Asset(amount: int, symbol: nat)

  predicate Valid(a: Asset) {
    -MAX_AMOUNT <= a.amount <= MAX_AMOUNT && Symbols.Valid(a.symbol)
  }

  function Make(amount: int, symbol: nat): Option<Asset> {
    if Valid(Asset(amount, symbol)) then Some(Asset(amount, symbol)) else None
  }

  function WholePart(magnitude: nat, decimals: nat): nat {
    DivMod(magnitude, Pow10(decimals));
    magnitude / Pow10(decimals)
  }

  function FractionPart(magnitude: nat, decimals: nat): nat {
    magnitude % Pow10(decimals)
  }

  function Magnitude(x: int): nat {
    if x < 0 then -x else x
  }

  /** The digits of the fraction, with leading zeros. */
  function FractionDigits(magnitude: nat, decimals: nat): string {
    if decimals == 0 then "" else Digits(Pow10(decimals) + FractionPart(magnitude, decimals))[1..]
  }

  function ToText(a: Asset): string {
    var m, d := Magnitude(a.amount), Symbols.Decimals(a.symbol);
    (if a.amount < 0 then "-" else "")
    + Digits(WholePart(m, d))
    + (if d > 0 then "." + FractionDigits(m, d) else "")
    + " " + Symbols.NameOf(a.symbol)
  }

  function FromText(from: string): Option<Asset> {
    var s := Trim(from);
    var space := Find(s, ' ');
    if space == |s| then None else FromParts(s[..space], Trim(s[space + 1..]))
  }

  function FromParts(amount: string, name: string): Option<Asset> {
    var dot := Find(amount, '.');
    if dot == |amount| then
      var symbol :- Symbols.FromString(Digits(0) + "," + name);
      var whole :- ParseInt64(amount);
      Scaled(whole, 0, symbol)
    else if dot == |amount| - 1 then None
    else
      var symbol :- Symbols.FromString(Digits(|amount| - dot - 1) + "," + name);
      var whole :- ParseInt64(amount[..dot]);
      var fraction :- ParseInt64(amount[dot + 1..]);
      var signed :- if amount[0] == '-' then SafeMul(fraction, -1) else Some(fraction);
      Scaled(whole, signed, symbol)
  }

  function Scaled(whole: int, fraction: int, symbol: nat): Option<Asset> {
    var scaled :- SafeMul(whole, Pow10(Symbols.Decimals(symbol)));
    var amount :- SafeAdd(scaled, fraction);
    Make(amount, symbol)
  }

  /* ---------- the texts that are accepted ---------- */

  datatype Sign = Unsigned | Plus | Minus

  function Mark(s: Sign): string {
    match s
    case Unsigned => ""
    case Plus => "+"
    case Minus => "-"
  }

  function Apply(s: Sign, x: nat): int {
    if s == Minus then 0 - x else x
  }

  /** What may stand before the space: a numeral, and after a point a second one with a sign of its own. */
  datatype Spelling = Spelling(sign: Sign, whole: string, inner: Sign, fraction: string) {
    predicate WellFormed() {
      && whole != "" && AllDigits(whole) && AllDigits(fraction)
      && (fraction == "" ==> inner == Unsigned)
    }

    function Head(): string {
      Mark(sign) + whole
    }

    function AfterPoint(): string {
      Mark(inner) + fraction
    }

    function Text(): string {
      Head() + (if fraction != "" then "." + AfterPoint() else "")
    }

    /** The decimals the symbol gets: the number of characters after the point, kept in eight bits. */
    function Precision(): nat {
      |AfterPoint()| % 256
    }

    function Whole(): int
      requires WellFormed()
    {
      Apply(sign, Value(whole))
    }

    function Inner(): int
      requires WellFormed()
    {
      Apply(inner, Value(fraction))
    }

    function Fraction(): int
      requires WellFormed()
    {
      if sign == Minus then 0 - Inner() else Inner()
    }

    function Scale(): int
      requires WellFormed()
    {
      Whole() * Pow10(Precision())
    }

    function Amount(): int
      requires WellFormed()
    {
      Scale() + Fraction()
    }

    predicate Fits()
      requires WellFormed()
    {
      && |AfterPoint()| <= MAX64 && Precision() <= Symbols.MAX_PRECISION
      && Int64(Whole()) && Int64(Inner()) && Int64(Fraction()) && Int64(Scale())
      && -MAX_AMOUNT <= Amount() <= MAX_AMOUNT
    }
  }

  /** What may stand after the space: capital letters, at most seven, up to a null character or the end. */
  predicate NameRead(name: string) {
    Symbols.Letters(Symbols.CString(name)) && |Symbols.CString(name)| <= Symbols.MAX_LETTERS
  }

  predicate Bare(s: string) {
    s != "" && !IsSpace(s[0]) && !IsSpace(s[|s| - 1])
  }

  function Reading(n: Spelling, name: string): Option<Asset>
    requires n.WellFormed()
  {
    if n.Fits() && NameRead(name)
    then Some(Asset(n.Amount(), Symbols.Value64(n.Precision(), Symbols.CString(name))))
    else None
  }

  lemma {:induction false} SymbolRead(digits: nat, name: string)
    requires Bare(name)
    ensures Symbols.FromString(Digits(digits) + "," + name)
            == if digits <= MAX64 && digits % 256 <= Symbols.MAX_PRECISION && NameRead(name)
               then Some(Symbols.Value64(digits % 256, Symbols.CString(name))) else None
  {
    hide Digits, Value, Trim, Find, Symbols.Value64;
    var d := Digits(digits);
    var s := d + "," + name;
    DigitsRead(digits);
    assert IsDigit(s[0]) && s[|s| - 1] == name[|name| - 1];
    TrimPadded("", s, "");
    assert "" + s + "" == s;
    NotAmong(d, ',');
    FindAt(d, ',', name);
    assert s[..|d|] == d && s[|d| + 1..] == name;
    ParseDigits(d);
  }

  lemma {:induction false} NotAmong(s: string, c: char)
    requires AllDigits(s) && !IsDigit(c)
    ensures c !in s
  {
  }

  lemma {:induction false} Pow10Bound(k: nat)
    requires k <= Symbols.MAX_PRECISION
    ensures Pow10(k) <= MAX64
  {
    Pow10Grows(k, 18);
    assert Pow10(6) == 1_000_000;
    assert Pow10(12) == 1_000_000 * Pow10(6);
    assert Pow10(18) == 1_000_000 * Pow10(12);
  }

  lemma {:induction false} Pow10Grows(m: nat, n: nat)
    requires m <= n
    ensures Pow10(m) <= Pow10(n)
    decreases n
  {
    if m < n {
      Pow10Grows(m, n - 1);
    }
  }

  /** The checked arithmetic gives the exact amount, or refuses one that is out of range on the way. */
  lemma {:induction false} ScaledExact(whole: int, fraction: int, k: nat, name: string)
    requires Int64(whole) && Int64(fraction) && k <= Symbols.MAX_PRECISION
    requires Symbols.Letters(name) && |name| <= Symbols.MAX_LETTERS
    ensures var symbol := Symbols.Value64(k, name);
            var scaled := whole * Pow10(k);
            Scaled(whole, fraction, symbol) == if Int64(scaled) then Make(scaled + fraction, symbol) else None
  {
    hide Symbols.Value64, Symbols.Valid, Pow10, Symbols.Decimals;
    Pow10Bound(k);
    Symbols.PartsOfValue(k, name);
    SafeMulExact(whole, Pow10(k));
    hide SafeMul;
  }

  lemma {:induction false} ParsedNumber(sign: Sign, s: string)
    requires s != "" && AllDigits(s)
    ensures var v := Apply(sign, Value(s));
            ParseInt64(Mark(sign) + s) == if Int64(v) then Some(v) else None
  {
    hide Value;
    var text := Mark(sign) + s;
    assert IsDigit(s[0]);
    if sign == Unsigned {
      assert text == s;
    } else {
      assert text[1..] == s;
    }
  }

  lemma {:induction false} ParsedFrom(text: string) returns (sign: Sign, s: string)
    requires ParseInt64(text).Some?
    ensures s != "" && AllDigits(s) && text == Mark(sign) + s
  {
    hide Value;
    if text[0] == '-' {
      sign, s := Minus, text[1..];
    } else if text[0] == '+' {
      sign, s := Plus, text[1..];
    } else {
      sign, s := Unsigned, text;
    }
  }

  lemma {:induction false} SpellingChars(n: Spelling)
    requires n.WellFormed()
    ensures Bare(n.Text()) && ' ' !in n.Text() && '.' !in n.Head() && n.Text()[0] == n.Head()[0]
    ensures n.Head()[0] == '-' <==> n.sign == Minus
    ensures n.Head()[0] == '+' <==> n.sign == Plus
  {
    NotAmong(n.whole, ' ');
    NotAmong(n.fraction, ' ');
    NotAmong(n.whole, '.');
    assert IsDigit(n.whole[0]) && IsDigit(n.whole[|n.whole| - 1]);
    var t := n.Text();
    if n.fraction != "" {
      assert IsDigit(n.fraction[|n.fraction| - 1]);
      assert t[|t| - 1] == n.fraction[|n.fraction| - 1];
    } else {
      assert t[|t| - 1] == n.whole[|n.whole| - 1];
    }
  }

  /** The parsed pieces, put together, are the reading. */
  lemma {:induction false} PiecesRead(n: Spelling, name: string)
    requires n.WellFormed()
    ensures Reading(n, name) ==
            if && |n.AfterPoint()| <= MAX64 && n.Precision() <= Symbols.MAX_PRECISION && NameRead(name)
               && Int64(n.Whole()) && Int64(n.Inner()) && Int64(n.Fraction())
            then Scaled(n.Whole(), n.Fraction(), Symbols.Value64(n.Precision(), Symbols.CString(name)))
            else None
  {
    hide Scaled, Symbols.Value64, Symbols.Valid, Pow10, Spelling.WellFormed, Spelling.Precision, Spelling.Whole,
      Spelling.Inner, Spelling.Fraction, Spelling.AfterPoint, Symbols.CString, Symbols.Letters;
    if n.Precision() <= Symbols.MAX_PRECISION && NameRead(name) && Int64(n.Whole()) && Int64(n.Fraction()) {
      Symbols.PartsOfValue(n.Precision(), Symbols.CString(name));
      ScaledExact(n.Whole(), n.Fraction(), n.Precision(), Symbols.CString(name));
    }
  }

  lemma {:induction false} ReadsWhole(n: Spelling, name: string)
    requires n.WellFormed() && Bare(name) && n.fraction == ""
    ensures FromParts(n.Text(), name) == Reading(n, name)
  {
    hide Digits, Symbols.FromString, Symbols.Value64, Symbols.Valid, Find, Pow10, Scaled, ParseInt64, NameRead, Bare,
      Value, Reading;
    SpellingChars(n);
    var text := n.Text();
    assert text == n.Head();
    FindAt(text, '.', "");
    SymbolRead(0, name);
    ParsedNumber(n.sign, n.whole);
    NoDigits(0);
    PiecesRead(n, name);
  }

  lemma {:induction false} PointedText(n: Spelling)
    requires n.fraction != ""
    ensures n.Text() == n.Head() + "." + n.AfterPoint() && n.AfterPoint() != ""
  {
    assert n.Head() + ("." + n.AfterPoint()) == n.Head() + "." + n.AfterPoint();
  }

  lemma {:induction false} ReadsPointed(n: Spelling, name: string)
    requires n.WellFormed() && Bare(name) && n.fraction != ""
    ensures FromParts(n.Text(), name) == Reading(n, name)
  {
    hide Digits, Symbols.FromString, Symbols.Value64, Symbols.Valid, Find, Pow10, Scaled, ParseInt64, NameRead, Bare,
      Value, Reading, SafeMul, Mark, Apply, Spelling.Text;
    SpellingChars(n);
    var head, rest := n.Head(), n.AfterPoint();
    var text := head + "." + rest;
    PointedText(n);
    FindAt(head, '.', rest);
    assert text[..|head|] == head && text[|head| + 1..] == rest;
    SymbolRead(|rest|, name);
    ParsedNumber(n.sign, n.whole);
    ParsedNumber(n.inner, n.fraction);
    if Int64(n.Inner()) {
      SafeMulExact(n.Inner(), -1);
    }
    PiecesRead(n, name);
  }

  /** A spelling and a name, with white space around them. */
  predicate Spelled(from: string, lead: string, n: Spelling, gap: string, name: string, trail: string) {
    && Blank(lead) && n.WellFormed() && Blank(gap) && Bare(name) && Blank(trail)
    && from == lead + (n.Text() + " " + (gap + name)) + trail
  }

  lemma {:induction false} SpelledRead(from: string, lead: string, n: Spelling, gap: string, name: string, trail: string)
    requires Spelled(from, lead, n, gap, name, trail)
    ensures FromText(from) == Reading(n, name)
  {
    hide Spelling.WellFormed, Spelling.Text, Reading, FromParts, Trim, Find;
    var text := n.Text();
    var core := text + " " + (gap + name);
    SpellingChars(n);
    assert core[0] == text[0] && core[|core| - 1] == name[|name| - 1];
    TrimPadded(lead, core, trail);
    FindAt(text, ' ', gap + name);
    assert core[..|text|] == text && core[|text| + 1..] == gap + name;
    TrimPadded(gap, name, "");
    assert gap + name + "" == gap + name;
    if n.fraction == "" {
      ReadsWhole(n, name);
    } else {
      ReadsPointed(n, name);
    }
  }

  lemma {:induction false} PartsSpelled(amount: string, name: string) returns (n: Spelling)
    requires FromParts(amount, name).Some?
    ensures n.WellFormed() && n.Text() == amount
  {
    hide Scaled, Symbols.FromString, ParseInt64, Digits, Value;
    var dot := Find(amount, '.');
    if dot == |amount| {
      var sign, whole := ParsedFrom(amount);
      n := Spelling(sign, whole, Unsigned, "");
    } else {
      var sign, whole := ParsedFrom(amount[..dot]);
      var inner, fraction := ParsedFrom(amount[dot + 1..]);
      n := Spelling(sign, whole, inner, fraction);
      assert amount == amount[..dot] + "." + amount[dot + 1..];
    }
  }

  lemma {:induction false} NameSpelled(s: string, space: nat) returns (gap: string, name: string)
    requires Bare(s) && space < |s| && s[space] == ' '
    ensures name == Trim(s[space + 1..]) && Blank(gap) && Bare(name) && s[space + 1..] == gap + name
  {
    hide Trim;
    var rest := s[space + 1..];
    name := Trim(rest);
    var trail;
    gap, trail := TrimSplit(rest);
    assert rest != "" && rest[|rest| - 1] == s[|s| - 1];
  }

  /** Every accepted text is a spelling and a name. */
  lemma {:induction false} AcceptedSpelled(from: string)
    returns (lead: string, n: Spelling, gap: string, name: string, trail: string)
    requires FromText(from).Some?
    ensures Spelled(from, lead, n, gap, name, trail)
  {
    hide Trim, FromParts, Spelling.WellFormed, Spelling.Text;
    var s := Trim(from);
    lead, trail := TrimSplit(from);
    var space := Find(s, ' ');
    gap, name := NameSpelled(s, space);
    n := PartsSpelled(s[..space], name);
    assert s == s[..space] + " " + s[space + 1..];
  }

  /** Which texts are accepted, and as what. */
  lemma {:induction false} AcceptedTexts(from: string, a: Asset)
    ensures FromText(from) == Some(a) <==>
            exists lead, n, gap, name, trail :: Spelled(from, lead, n, gap, name, trail) && Reading(n, name) == Some(a)
  {
    hide FromText, Spelling.WellFormed, Spelling.Text, Blank, Bare, Reading;
    if FromText(from) == Some(a) {
      var lead, n, gap, name, trail := AcceptedSpelled(from);
      SpelledRead(from, lead, n, gap, name, trail);
      assert Spelled(from, lead, n, gap, name, trail) && Reading(n, name) == Some(a);
    }
    forall lead, n, gap, name, trail | Spelled(from, lead, n, gap, name, trail) ensures FromText(from) == Reading(n, name) {
      SpelledRead(from, lead, n, gap, name, trail);
    }
  }

  lemma {:induction false} OneMinusFive(n: Spelling)
    requires n == Spelling(Unsigned, "1", Minus, "5")
    ensures n.WellFormed() && n.Fits() && n.Amount() == 95 && n.Precision() == 2 && n.Text() == "1.-5"
  {
    AppendDigit("", '1');
    AppendDigit("", '5');
    assert "" + "1" == "1" && "" + "5" == "5";
    assert Pow10(2) == 100;
    hide Value, Pow10;
    assert n.Whole() == 1 && n.Inner() == -5 && n.Precision() == 2 && n.Scale() == 100;
  }

  /** A sign after the point is taken into the fraction, and counted as one of its digits. */
  lemma {:induction false} SignedFraction(from: string)
    requires from == "1.-5 ABC"
    ensures FromText(from) == Some(Asset(95, Symbols.Value64(2, "ABC")))
  {
    var n, name := Spelling(Unsigned, "1", Minus, "5"), "ABC";
    NameLetters(name);
    hide FromText, Symbols.Value64, Symbols.CString, NameRead, Spelling.WellFormed, Spelling.Fits, Spelling.Amount,
      Spelling.Precision, Spelling.Text, Bare;
    OneMinusFive(n);
    assert "" + (n.Text() + " " + ("" + name)) + "" == from;
    SpelledRead(from, "", n, "", name, "");
  }

  /* ---------- reading a well-formed decimal ---------- */

  /** A decimal numeral; without fraction digits it has no point. */
  datatype Numeral = Numeral(negative: bool, whole: string, fraction: string) {
    /** The length of a text fits in 64 bits. */
    predicate WellFormed() {
      whole != "" && AllDigits(whole) && AllDigits(fraction) && |fraction| <= MAX64
    }

    function Text(): string {
      (if negative then "-" else "") + whole + (if fraction != "" then "." + fraction else "")
    }

    /** The decimals the symbol gets: the number of fraction digits, kept in eight bits. */
    function Precision(): nat {
      |fraction| % 256
    }

    function Magnitude(): nat
      requires WellFormed()
    {
      Tens(Value(whole), Precision()) + Value(fraction)
    }

    function Amount(): int
      requires WellFormed()
    {
      if negative then 0 - Magnitude() else Magnitude()
    }

    function Spelled(): Spelling {
      Spelling(if negative then Minus else Unsigned, whole, Unsigned, fraction)
    }
  }

  predicate NameOk(name: string) {
    name != "" && |name| <= Symbols.MAX_LETTERS && Symbols.Letters(name)
  }

  /** What a numeral and a name are read as. */
  function Meaning(n: Numeral, name: string): Option<Asset>
    requires n.WellFormed()
  {
    if n.Precision() <= Symbols.MAX_PRECISION && n.Magnitude() <= MAX_AMOUNT
    then Some(Asset(n.Amount(), Symbols.Value64(n.Precision(), name)))
    else None
  }

  lemma {:induction false} SameSign(x: int, p: nat)
    requires p >= 1
    ensures x >= 0 ==> x * p >= x
    ensures x <= 0 ==> x * p <= x
  {
    assert x * p == x + x * (p - 1);
  }

  lemma {:induction false} NameLetters(name: string)
    requires NameOk(name)
    ensures Bare(name) && Symbols.CString(name) == name && NameRead(name)
  {
    assert Symbols.Letter(name[0]) && Symbols.Letter(name[|name| - 1]);
    FindIs(name, '\0', |name|);
    assert name[..|name|] == name;
  }

  lemma {:induction false} NumeralSpelled(n: Numeral)
    requires n.WellFormed()
    ensures n.Spelled().WellFormed() && n.Spelled().Text() == n.Text() && n.Spelled().AfterPoint() == n.fraction
  {
    assert "" + n.fraction == n.fraction;
  }

  /** With both signs the same, nothing on the way is out of range when the amount is not. */
  lemma {:induction false} NumeralReading(n: Numeral, name: string)
    requires n.WellFormed() && NameOk(name)
    ensures n.Spelled().WellFormed() && Reading(n.Spelled(), name) == Meaning(n, name)
  {
    hide Value, Pow10, Symbols.Value64, NameRead, Spelling.AfterPoint;
    NameLetters(name);
    NumeralSpelled(n);
    var v: int, p: int := Value(n.whole), Pow10(n.Precision());
    SameSign(v, p);
    assert (0 - v) * p == 0 - v * p;
  }

  /**
    Every well-formed decimal and symbol, with any white space around them, is read as its exact
    scaled amount, or refused for its precision or its size.
  */
  lemma {:induction false} Reads(lead: string, n: Numeral, gap: string, name: string, trail: string)
    requires Blank(lead) && n.WellFormed() && Blank(gap) && NameOk(name) && Blank(trail)
    ensures FromText(lead + (n.Text() + " " + (gap + name)) + trail) == Meaning(n, name)
  {
    hide FromText, Numeral.WellFormed, Numeral.Text, Numeral.Spelled, Spelling.WellFormed, Spelling.Text, Meaning, Reading,
      NameRead;
    NumeralSpelled(n);
    NumeralReading(n, name);
    NameLetters(name);
    SpelledRead(lead + (n.Text() + " " + (gap + name)) + trail, lead, n.Spelled(), gap, name, trail);
  }

  /** A text that is a well-formed decimal and a symbol. */
  predicate Plain(from: string, lead: string, n: Numeral, gap: string, name: string, trail: string) {
    && Blank(lead) && n.WellFormed() && Blank(gap) && NameOk(name) && Blank(trail)
    && from == lead + (n.Text() + " " + (gap + name)) + trail
  }

  predicate MinusAfterPoint(from: string) {
    var i := Find(from, '.');
    i + 1 < |from| && from[i + 1] == '-'
  }

  predicate Odd(from: string) {
    '+' in from || '\0' in from || MinusAfterPoint(from)
  }

  /** Exactly when an accepted text is a well-formed decimal and a symbol. */
  lemma {:induction false} AcceptedDecimals(from: string)
    requires FromText(from).Some?
    ensures (exists lead, n, gap, name, trail :: Plain(from, lead, n, gap, name, trail)) <==> !Odd(from)
  {
    hide FromText, Plain, Odd;
    forall lead, n, gap, name, trail | Plain(from, lead, n, gap, name, trail) ensures !Odd(from) {
      PlainIsNotOdd(from, lead, n, gap, name, trail);
    }
    if !Odd(from) {
      var lead, n, gap, name, trail := NotOddIsPlain(from);
      assert Plain(from, lead, n, gap, name, trail);
    }
  }

  predicate Tame(s: string) {
    '+' !in s && '\0' !in s && '.' !in s
  }

  lemma {:induction false} TameText(s: string)
    requires Blank(s) || AllDigits(s) || Symbols.Letters(s)
    ensures Tame(s)
  {
  }

  lemma {:induction false} TameJoin(s: string, t: string)
    requires Tame(s) && Tame(t)
    ensures Tame(s + t)
  {
  }

  lemma {:induction false} PlainIsNotOdd(from: string, lead: string, n: Numeral, gap: string, name: string, trail: string)
    requires Plain(from, lead, n, gap, name, trail)
    ensures !Odd(from)
  {
    hide Find, Value, Blank;
    TameText(lead);
    TameText(n.whole);
    TameText(n.fraction);
    TameText(gap);
    TameText(name);
    TameText(trail);
    var sign := if n.negative then "-" else "";
    var head, after := lead + (sign + n.whole), " " + gap + name + trail;
    TameJoin(sign, n.whole);
    TameJoin(lead, sign + n.whole);
    TameJoin(" ", gap);
    TameJoin(" " + gap, name);
    TameJoin(" " + gap + name, trail);
    TameJoin(head, after);
    TameJoin(n.fraction, after);
    if n.fraction == "" {
      assert from == head + after;
      FindAt(from, '.', "");
    } else {
      assert from == head + "." + (n.fraction + after);
      FindAt(head, '.', n.fraction + after);
      assert IsDigit(n.fraction[0]) && from[|head| + 1] == n.fraction[0];
    }
  }

  lemma {:induction false} NotOddIsPlain(from: string)
    returns (lead: string, n: Numeral, gap: string, name: string, trail: string)
    requires FromText(from).Some? && !Odd(from)
    ensures Plain(from, lead, n, gap, name, trail)
  {
    hide FromText, Find, Value, Spelling.Scale, Spelling.Whole, Spelling.Inner, Spelling.Fraction, Spelling.Amount;
    var sp;
    lead, sp, gap, name, trail := AcceptedSpelled(from);
    SpelledRead(from, lead, sp, gap, name, trail);
    n := Numeral(sp.sign == Minus, sp.whole, sp.fraction);
    NoPlus(from, lead, sp, gap, name, trail);
    NoNull(from, lead, sp, gap, name, trail);
    assert sp.AfterPoint() == sp.fraction;
    assert n.Text() == sp.Text();
  }

  lemma {:induction false} NoPlus(from: string, lead: string, n: Spelling, gap: string, name: string, trail: string)
    requires Spelled(from, lead, n, gap, name, trail) && !Odd(from)
    ensures n.sign != Plus && n.inner == Unsigned
  {
    hide Find, Bare, Mark, Spelling.Text, Spelling.Head;
    var head := lead + n.Head();
    var after := " " + gap + name + trail;
    SpellingChars(n);
    assert from[|lead|] == n.Text()[0];
    if n.fraction != "" {
      PointedText(n);
      var rest := n.AfterPoint() + after;
      assert from == head + "." + rest;
      FindAt(head, '.', rest);
      assert from[|head| + 1] == n.AfterPoint()[0];
      InnerSign(n);
    }
  }

  lemma {:induction false} InnerSign(n: Spelling)
    requires n.WellFormed() && n.fraction != ""
    ensures n.AfterPoint()[0] == '-' <==> n.inner == Minus
    ensures n.AfterPoint()[0] == '+' <==> n.inner == Plus
  {
    assert IsDigit(n.fraction[0]);
  }

  lemma {:induction false} NoNull(from: string, lead: string, n: Spelling, gap: string, name: string, trail: string)
    requires Spelled(from, lead, n, gap, name, trail) && !Odd(from) && NameRead(name)
    ensures NameOk(name)
  {
    hide Spelling.WellFormed, Spelling.Text;
    forall i | 0 <= i < |name| ensures name[i] != '\0' {
      assert from[|lead| + |n.Text()| + 1 + |gap| + i] == name[i];
    }
    FindIs(name, '\0', |name|);
    assert name[..|name|] == name;
  }

  /** The numeral an asset is written as. */
  function NumeralOf(a: Asset): Numeral {
    var m, d := Magnitude(a.amount), Symbols.Decimals(a.symbol);
    Numeral(a.amount < 0, Digits(WholePart(m, d)), FractionDigits(m, d))
  }

  lemma {:induction false} FractionWritten(m: nat, d: nat)
    ensures var s := FractionDigits(m, d);
            |s| == d && AllDigits(s) && Value(s) == FractionPart(m, d)
    ensures m == Tens(WholePart(m, d), d) + FractionPart(m, d)
  {
    DivMod(m, Pow10(d));
    NoDigits(m);
    if d > 0 {
      Padded(FractionPart(m, d), d);
    } else {
      assert Pow10(0) == 1;
    }
  }

  lemma {:induction false} Written(a: Asset)
    requires Valid(a)
    ensures NumeralOf(a).WellFormed()
    ensures ToText(a) == NumeralOf(a).Text() + " " + Symbols.NameOf(a.symbol)
    ensures Meaning(NumeralOf(a), Symbols.NameOf(a.symbol)) == Some(a)
  {
    hide Value, Tens, Digits, FractionDigits, FractionPart, WholePart, Symbols.Value64, Symbols.NameOf;
    var m, d := Magnitude(a.amount), Symbols.Decimals(a.symbol);
    FractionWritten(m, d);
    DigitsRead(WholePart(m, d));
    Symbols.ValueParts(a.symbol);
  }

  /** Without a name the space before it is trimmed away. */
  lemma {:induction false} NamelessRefused(n: Numeral)
    requires n.WellFormed()
    ensures FromText(n.Text() + " ") == None
  {
    hide Numeral.WellFormed, Numeral.Text, Numeral.Spelled, Spelling.WellFormed, Spelling.Text, Spelling.Head, Trim, Find, FromParts;
    NumeralSpelled(n);
    SpellingChars(n.Spelled());
    TrimPadded("", n.Text(), " ");
    assert "" + n.Text() + " " == n.Text() + " ";
    FindAt(n.Text(), ' ', "");
  }

  /** Every valid asset is read back from its text, exactly when its symbol has a name. */
  lemma {:induction false} RoundTrip(a: Asset)
    requires Valid(a)
    ensures FromText(ToText(a)) == Some(a) <==> Symbols.NameOf(a.symbol) != ""
  {
    hide Numeral.WellFormed, Numeral.Text, Meaning, ToText, NumeralOf, FromText, Symbols.NameOf;
    var n, name := NumeralOf(a), Symbols.NameOf(a.symbol);
    Written(a);
    if name != "" {
      Symbols.NameLength(a.symbol);
      Reads("", n, "", name, "");
      assert "" + (n.Text() + " " + ("" + name)) + "" == ToText(a);
    } else {
      NamelessRefused(n);
      assert n.Text() + " " + name == n.Text() + " ";
    }
  }

  /* ---------- precision beyond eighteen digits ---------- */

  function Zeros(n: nat): string {
    if n == 0 then "" else Zeros(n - 1) + "0"
  }

  lemma {:induction false} ZerosRead(n: nat)
    ensures |Zeros(n)| == n && AllDigits(Zeros(n)) && Value(Zeros(n)) == 0
  {
    if n > 0 {
      ZerosRead(n - 1);
      AppendDigit(Zeros(n - 1), '0');
    } else {
      NoDigits(0);
    }
  }

  /**
    More than eighteen decimals are refused, unless their number, kept in eight bits, is small
    again and the amount read with that precision is in range.
  */
  lemma {:induction false} ManyDecimals(n: Numeral, name: string)
    requires n.WellFormed() && NameOk(name) && |n.fraction| > Symbols.MAX_PRECISION
    ensures FromText(n.Text() + " " + name) == None
            <==> |n.fraction| < 256 || n.Precision() > Symbols.MAX_PRECISION || n.Magnitude() > MAX_AMOUNT
  {
    hide Numeral.Text, FromText, Value, Tens;
    Reads("", n, "", name, "");
    assert "" + (n.Text() + " " + ("" + name)) + "" == n.Text() + " " + name;
  }

  /** 256 zeros after the point are read like none at all. */
  lemma {:induction false} ManyZeros(whole: string, name: string)
    requires whole != "" && AllDigits(whole) && Value(whole) <= MAX_AMOUNT && NameOk(name)
    ensures FromText(whole + "." + Zeros(256) + " " + name) == Some(Asset(Value(whole), Symbols.Value64(0, name)))
  {
    hide Value, FromText, Zeros, Tens;
    var n := Numeral(false, whole, Zeros(256));
    ZerosRead(256);
    NoDigits(Value(whole));
    Reads("", n, "", name, "");
    assert n.Text() == whole + "." + Zeros(256);
    assert "" + (n.Text() + " " + ("" + name)) + "" == n.Text() + " " + name;
  }

  /* ---------- the routines, step by step ---------- */

  method ToString(a: Asset) returns (s: string)
    requires Valid(a)
    ensures s == ToText(a)
  {
    hide Digits, Pow10, Symbols.NameOf;
    var sign := if a.amount < 0 then "-" else "";
    var magnitude := Magnitude(a.amount);
    var decimals := Symbols.Decimals(a.symbol);
    var p := Symbols.Precision(a.symbol);
    var result := Digits(WholePart(magnitude, decimals));
    if decimals > 0 {
      var fract := FractionPart(magnitude, decimals);
      var padded := Digits(p.value + fract);
      padded := padded[1..];
      result := result + ("." + padded);
    }
    var name := Symbols.Name(a.symbol);
    s := sign + result + " " + name;
    assert s == ToText(a) by {
      var m, d := magnitude, decimals;
      if d == 0 {
        assert Digits(WholePart(m, d)) + "" == Digits(WholePart(m, d));
      } else {
        assert sign + (Digits(WholePart(m, d)) + ("." + FractionDigits(m, d)))
            == sign + Digits(WholePart(m, d)) + ("." + FractionDigits(m, d));
      }
    }
  }

  method FromString(from: string) returns (r: Option<Asset>)
    ensures r == FromText(from)
  {
    hide Digits, Pow10, Symbols.FromString, Find, Trim, ParseInt64, SafeMul, SafeAdd, Symbols.Valid;
    var s := Trim(from);
    var space := Find(s, ' ');
    if space == |s| {
      return None;
    }
    var name := Trim(s[space + 1..]);
    var amountText := s[..space];
    var dot := Find(amountText, '.');
    var pointed := dot != |amountText|;
    if pointed && dot == |amountText| - 1 {
      return None;
    }
    var precision := Digits(0);
    if pointed {
      precision := Digits(|amountText| - dot - 1);
    }
    var sym := Symbols.FromString(precision + "," + name);
    if sym.None? {
      return None;
    }
    var whole, fraction := None, Some(0);
    if pointed {
      whole := ParseInt64(amountText[..dot]);
      if whole.None? {
        return None;
      }
      fraction := ParseInt64(amountText[dot + 1..]);
      if fraction.None? {
        return None;
      }
      if amountText[0] == '-' {
        fraction := SafeMul(fraction.value, -1);
        if fraction.None? {
          return None;
        }
      }
    } else {
      whole := ParseInt64(amountText);
      if whole.None? {
        return None;
      }
    }
    var p := Symbols.Precision(sym.value);
    SymbolPrecision(precision + "," + name);
    var amount := SafeMul(whole.value, p.value);
    if amount.None? {
      return None;
    }
    amount := SafeAdd(amount.value, fraction.value);
    if amount.None? {
      return None;
    }
    r := Make(amount.value, sym.value);
  }

  lemma {:induction false} SymbolPrecision(s: string)
    ensures Symbols.FromString(s).Some? ==> Symbols.Decimals(Symbols.FromString(s).value) <= Symbols.MAX_PRECISION
  {
  }
}
