/** Bit operations on natural numbers, digit by digit, and their arithmetic meaning. */
module Bits {

  function Pow2(n: nat): (p: nat)
    ensures p >= 1
  {
    if n == 0 then 1 else 2 * Pow2(n - 1)
  }

  /** Shift to the left. */
  function Shift(x: nat, n: nat): nat {
    x * Pow2(n)
  }

  /** Shift to the right. */
  function High(x: nat, n: nat): nat {
    DivMod(x, Pow2(n));
    x / Pow2(n)
  }

  /** The digits a shift to the right drops. */
  function Low(x: nat, n: nat): nat {
    x % Pow2(n)
  }

  function And(x: nat, y: nat): nat {
    if x == 0 || y == 0 then 0 else (x % 2) * (y % 2) + 2 * And(x / 2, y / 2)
  }

  function Or(x: nat, y: nat): nat {
    if x == 0 then y
    else if y == 0 then x
    else (if x % 2 == 1 || y % 2 == 1 then 1 else 0) + 2 * Or(x / 2, y / 2)
  }

  function Xor(x: nat, y: nat): nat
    decreases x + y
  {
    if x == 0 then y
    else if y == 0 then x
    else (x + y) % 2 + 2 * Xor(x / 2, y / 2)
  }

  /** The number of significant bits. */
  function BitLength(x: nat): (n: nat)
    ensures n == 0 <==> x == 0
  {
    if x == 0 then 0 else 1 + BitLength(x / 2)
  }

  function Flag(b: bool): nat {
    if b then 1 else 0
  }

  /* ---------- multiplication and division ---------- */

  lemma {:induction false} MulAtLeast(k: nat, d: nat)
    requires k >= 1
    ensures k * d >= d
  {
    assert k * d == d + (k - 1) * d;
  }

  /** Multiplying by the same positive number keeps the order, with room to spare. */
  lemma {:induction false} MulOrder(x: int, y: int, d: nat)
    requires x < y
    ensures x * d + d <= y * d
  {
    MulAtLeast(y - x, d);
    assert (y - x) * d == y * d - x * d;
  }

  lemma {:induction false} DivMod(x: nat, d: nat)
    requires d > 0
    ensures x / d >= 0 && x % d < d && x == (x / d) * d + x % d
  {
    if x / d < 0 {
      MulOrder(x / d, 0, d);
    }
  }

  lemma {:induction false} QuotientUnique(d: nat, q: int, r: nat, q': int, r': nat)
    requires q * d + r == q' * d + r' && r < d && r' < d
    ensures q == q' && r == r'
  {
    if q > q' {
      MulOrder(q', q, d);
    } else if q < q' {
      MulOrder(q, q', d);
    }
  }

  /** The representative of a small integer modulo d. */
  lemma {:induction false} ModNear(x: int, d: nat)
    requires 0 - d <= x < d
    ensures x % d == if x < 0 then x + d else x
  {
    var q := if x < 0 then -1 else 0;
    assert x == (x / d) * d + x % d;
    QuotientUnique(d, q, x - q * d, x / d, x % d);
  }

  /* ---------- powers of two ---------- */

  lemma {:induction false} Pow2Double(n: nat)
    ensures Pow2(n + 1) == 2 * Pow2(n)
  {
  }

  lemma {:induction false} Pow2Add(m: nat, n: nat)
    ensures Pow2(m + n) == Pow2(m) * Pow2(n)
  {
    if m > 0 {
      Pow2Add(m - 1, n);
      Associates(2, Pow2(m - 1), Pow2(n));
    }
  }

  lemma {:induction false} Associates(x: nat, y: nat, z: nat)
    ensures (x * y) * z == x * (y * z)
  {
  }

  lemma {:induction false} Pow2Less(m: nat, n: nat)
    requires m < n
    ensures 2 * Pow2(m) <= Pow2(n)
    decreases n
  {
    if m < n - 1 {
      Pow2Less(m, n - 1);
    }
  }

  /* ---------- high and low digits ---------- */

  lemma {:induction false} HighLow(x: nat, n: nat)
    ensures x == High(x, n) * Pow2(n) + Low(x, n) && Low(x, n) < Pow2(n)
  {
    hide Pow2;
    DivMod(x, Pow2(n));
  }

  lemma {:induction false} LowBelow(x: nat, n: nat)
    ensures Low(x, n) < Pow2(n) && Low(x, n) <= x
  {
    hide Pow2, High, Low;
    HighLow(x, n);
  }

  lemma {:induction false} HighLowUnique(x: nat, n: nat, q: nat, r: nat)
    requires x == q * Pow2(n) + r && r < Pow2(n)
    ensures High(x, n) == q && Low(x, n) == r
  {
    hide Pow2, High, Low;
    HighLow(x, n);
    QuotientUnique(Pow2(n), q, r, High(x, n), Low(x, n));
  }

  /** A shift to the right lands between the shifted bounds. */
  lemma {:induction false} HighBetween(x: nat, n: nat, lo: nat, hi: nat)
    requires lo * Pow2(n) <= x < hi * Pow2(n)
    ensures lo <= High(x, n) < hi
  {
    hide Pow2, High, Low;
    HighLow(x, n);
    var q := High(x, n);
    if q < lo {
      MulOrder(q, lo, Pow2(n));
    } else if q > hi {
      MulOrder(hi, q, Pow2(n));
    }
  }

  /** A number below 2^n has no digits beyond. */
  lemma {:induction false} Below(x: nat, n: nat)
    requires x < Pow2(n)
    ensures High(x, n) == 0 && Low(x, n) == x
  {
    hide Pow2, High, Low;
    HighLowUnique(x, n, 0, x);
  }

  /** Shifting right by n + 1 is halving first. */
  lemma {:induction false} ShiftStep(x: nat, n: nat)
    ensures High(x, n + 1) == High(x / 2, n)
    ensures Low(x, n + 1) == x % 2 + 2 * Low(x / 2, n)
  {
    hide Pow2, High, Low;
    HighLow(x / 2, n);
    Pow2Double(n);
    var q, r, p := High(x / 2, n), Low(x / 2, n), Pow2(n);
    assert q * (2 * p) == 2 * (q * p);
    HighLowUnique(x, n + 1, q, 2 * r + x % 2);
  }

  /** Shifting left by k and right by k + n is shifting right by n. */
  lemma {:induction false} ShiftCancels(x: nat, k: nat, n: nat)
    ensures High(Shift(x, k), k + n) == High(x, n)
  {
    hide Pow2, High, Low;
    HighLow(x, n);
    Pow2Add(k, n);
    var q, r, h, d := High(x, n), Low(x, n), Pow2(k), Pow2(n);
    assert (q * d + r) * h == (q * d) * h + r * h;
    assert (q * d) * h == q * (h * d);
    MulOrder(r, d, h);
    HighLowUnique(Shift(x, k), k + n, q, r * h);
  }

  /* ---------- what the operations mean ---------- */

  lemma {:induction false} AndStep(x: nat, y: nat)
    ensures And(x, y) == (if x % 2 == 1 && y % 2 == 1 then 1 else 0) + 2 * And(x / 2, y / 2)
  {
  }

  /** Masking with n ones keeps the low n digits. */
  lemma {:induction false} AndMask(x: nat, n: nat)
    ensures And(x, Pow2(n) - 1) == Low(x, n)
    decreases n
  {
    if n > 0 {
      AndMask(x / 2, n - 1);
      ShiftStep(x, n - 1);
      hide High, Low;
      var y := Pow2(n) - 1;
      assert y % 2 == 1 && y / 2 == Pow2(n - 1) - 1;
      AndStep(x, y);
      hide And, Pow2;
    }
  }

  /** Masking with 2^n tests one bit. */
  lemma {:induction false} AndBit(x: nat, n: nat)
    ensures And(x, Pow2(n)) == if High(x, n) % 2 == 1 then Pow2(n) else 0
    decreases n
  {
    if n > 0 {
      AndBit(x / 2, n - 1);
      ShiftStep(x, n - 1);
      hide High, Low;
      assert Pow2(n) % 2 == 0 && Pow2(n) / 2 == Pow2(n - 1);
    } else {
      assert High(x, 0) == x;
      if x > 0 {
        assert And(x / 2, 0) == 0;
      }
    }
  }

  /** Joining a multiple of 2^n with something below 2^n adds them. */
  lemma {:induction false} OrDisjoint(x: nat, y: nat, n: nat)
    requires y < Pow2(n)
    ensures Or(x * Pow2(n), y) == x * Pow2(n) + y
    decreases n
  {
    if n > 0 && x > 0 {
      var p := Pow2(n - 1);
      var z := x * Pow2(n);
      assert z == 2 * (x * p);
      assert z % 2 == 0 && z / 2 == x * p;
      OrDisjoint(x, y / 2, n - 1);
    }
  }

  lemma {:induction false} OrCommutes(x: nat, y: nat)
    ensures Or(x, y) == Or(y, x)
  {
    if x > 0 && y > 0 {
      OrCommutes(x / 2, y / 2);
    }
  }

  lemma {:induction false} OrFlag(x: nat, b: bool)
    ensures Or(x, Flag(b)) == x + Flag(b && x % 2 == 0)
  {
    if x > 0 && b {
      assert Or(x / 2, 0) == x / 2;
    }
  }

  /** Flipping the low n bits. */
  lemma {:induction false} XorOnes(x: nat, n: nat)
    requires x < Pow2(n)
    ensures Xor(x, Pow2(n) - 1) == Pow2(n) - 1 - x
    decreases n
  {
    if n > 0 {
      var p := Pow2(n - 1);
      XorOnes(x / 2, n - 1);
      XorOddStep(x, p, Pow2(n) - 1);
    }
  }

  /** One step of an exclusive or with an odd number. */
  lemma {:induction false} XorOddStep(x: nat, p: nat, y: nat)
    requires p > 0 && y == 2 * p - 1
    ensures Xor(x, y) == 1 - x % 2 + 2 * Xor(x / 2, p - 1)
  {
    assert y % 2 == 1 && y / 2 == p - 1;
    assert (x + y) % 2 == 1 - x % 2;
    if x == 0 {
      assert Xor(0, p - 1) == p - 1;
    }
  }

  lemma {:induction false} BitLengthBounds(x: nat)
    requires x > 0
    ensures BitLength(x) > 0 && Pow2(BitLength(x) - 1) <= x < Pow2(BitLength(x))
  {
    if x > 1 {
      BitLengthBounds(x / 2);
    } else {
      assert BitLength(1) == 1 + BitLength(0);
    }
  }

  lemma {:induction false} BitLengthUnique(x: nat, n: nat)
    requires n > 0 && Pow2(n - 1) <= x < Pow2(n)
    ensures BitLength(x) == n
  {
    BitLengthBounds(x);
    var m := BitLength(x);
    if m < n && m < n - 1 {
      Pow2Less(m, n - 1);
    } else if n < m && n < m - 1 {
      Pow2Less(n, m - 1);
    }
  }

  lemma {:induction false} BitLengthMonotone(x: nat, y: nat)
    requires x <= y
    ensures BitLength(x) <= BitLength(y)
    decreases y
  {
    if x > 0 {
      BitLengthMonotone(x / 2, y / 2);
    }
  }

  /** The length of a number is that of its part above 2^n, plus n. */
  lemma {:induction false} BitLengthHigh(x: nat, n: nat)
    requires High(x, n) > 0
    ensures BitLength(x) == n + BitLength(High(x, n))
    decreases n
  {
    if n > 0 {
      ShiftStep(x, n - 1);
      hide High;
      BitLengthHigh(x / 2, n - 1);
      if x == 0 {
        Below(0, n);
      }
    } else {
      assert High(x, 0) == x;
    }
  }
}
