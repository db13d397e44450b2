/** `fc::unsigned_int` on the wire: seven bits per byte, low bits first, at most five bytes. */
module Varint {
  import opened Basics

  const TWO_32: nat := 0x1_0000_0000

  function PackUint(n: nat): (bs: bytes)
    ensures |bs| >= 1
  {
    if n < 128 then [n] else [128 + n % 128] + PackUint(n / 128)
  }

  /** Reads the digits from byte position `i` on.  The fifth byte is shifted by 28 in a 32-bit
      word, so only four of its bits survive, and its continuation bit is not looked at. */
  function UnpackDigits(s: bytes, i: nat): (r: Option<(nat, bytes)>)
    requires i <= 4
    ensures r.Some? ==> |r.value.1| < |s| && r.value.1 == s[|s| - |r.value.1|..]
    ensures r.Some? ==> r.value.0 < Room(i)
    decreases 4 - i
  {
    if s == [] then None
    else if i == 4 then Some((s[0] % 16, s[1..]))
    else if s[0] < 128 then Some((s[0], s[1..]))
    else
      var (high, rest) :- UnpackDigits(s[1..], i + 1);
      Some((s[0] % 128 + 128 * high, rest))
  }

  function UnpackUint(s: bytes): (r: Option<(nat, bytes)>)
    ensures r.Some? ==> |r.value.1| < |s| && r.value.1 == s[|s| - |r.value.1|..]
    ensures r.Some? ==> r.value.0 < TWO_32
  {
    UnpackDigits(s, 0)
  }

  /** The numbers that fit in the bits left after `i` bytes. */
  function Room(i: nat): nat
    requires i <= 4
  {
    [0x1_0000_0000, 0x200_0000, 0x4_0000, 0x800, 0x10][i]
  }

  lemma {:induction false} LowDigit(n: nat, i: nat)
    requires i <= 4 && 128 <= n < Room(i)
    ensures (128 + n % 128) % 128 + 128 * (n / 128) == n && i < 4 && n / 128 < Room(i + 1)
  {
  }

  lemma {:induction false} DigitsRoundTrip(n: nat, i: nat, rest: bytes)
    requires i <= 4 && n < Room(i)
    ensures UnpackDigits(PackUint(n) + rest, i) == Some((n, rest))
    decreases 4 - i
  {
    var bs := PackUint(n);
    assert (bs + rest)[0] == bs[0];
    if n < 128 {
      assert (bs + rest)[1..] == rest;
    } else {
      LowDigit(n, i);
      assert (bs + rest)[1..] == PackUint(n / 128) + rest;
      hide Room;
      DigitsRoundTrip(n / 128, i + 1, rest);
    }
  }

  /** Every 32-bit number is read back, and reading stops exactly after its bytes. */
  lemma {:induction false} UintRoundTrip(n: nat, rest: bytes)
    requires n < TWO_32
    ensures UnpackUint(PackUint(n) + rest) == Some((n, rest))
  {
    DigitsRoundTrip(n, 0, rest);
  }
}
