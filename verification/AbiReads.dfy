/** How bytes are read that packing never writes: long numbers, and optionals of types that are not built in. */
module AbiReads {
  import opened Basics
  import opened Varint
  import opened AbiTypes
  import opened AbiCodec
  import opened AbiRoundTrip

  /* ---------- numbers ---------- */

  /** One number: every byte but the last has its top bit set, and there are at most five. */
  predicate OneNumber(bs: bytes) {
    && 1 <= |bs| <= 5
    && (forall i | 0 <= i < |bs| - 1 :: bs[i] >= 128)
    && (|bs| < 5 ==> bs[|bs| - 1] < 128)
  }

  /** Seven bits of each byte, the first lowest; of a fifth byte four. */
  function Number(bs: bytes, i: nat): nat
    requires i <= 4 && |bs| <= 5 - i
  {
    if bs == [] then 0 else if i == 4 then bs[0] % 16 else bs[0] % 128 + 128 * Number(bs[1..], i + 1)
  }

  /** From the i-th byte of a number on. */
  predicate NumberFrom(bs: bytes, i: nat) {
    && i <= 4 && 1 <= |bs| <= 5 - i
    && (forall j | 0 <= j < |bs| - 1 :: bs[j] >= 128)
    && (|bs| < 5 - i ==> bs[|bs| - 1] < 128)
  }

  lemma {:induction false} LastByte(bs: bytes, i: nat, rest: bytes)
    requires NumberFrom(bs, i) && |bs| == 1
    ensures UnpackDigits(bs + rest, i) == Some((Number(bs, i), rest))
  {
    assert bs[1..] == [] && (bs + rest)[1..] == rest;
  }

  lemma {:induction false} MoreBytes(bs: bytes, i: nat, rest: bytes)
    requires i < 4 && 1 <= |bs| <= 5 - i && bs[0] >= 128
    requires UnpackDigits(bs[1..] + rest, i + 1) == Some((Number(bs[1..], i + 1), rest))
    ensures UnpackDigits(bs + rest, i) == Some((Number(bs, i), rest))
  {
    assert (bs + rest)[1..] == bs[1..] + rest;
  }

  lemma {:induction false} DigitsRead(bs: bytes, i: nat, rest: bytes)
    requires NumberFrom(bs, i)
    ensures UnpackDigits(bs + rest, i) == Some((Number(bs, i), rest))
    decreases |bs|
  {
    hide UnpackDigits, Number;
    if |bs| == 1 {
      LastByte(bs, i, rest);
    } else {
      DigitsRead(bs[1..], i + 1, rest);
      MoreBytes(bs, i, rest);
    }
  }

  /** One step of reading: a number ends here, or goes on after a byte with its top bit set. */
  lemma {:induction false} EndsOrGoesOn(s: bytes, i: nat)
    requires i <= 4
    ensures s == [] ==> UnpackDigits(s, i).None?
    ensures s != [] && (i == 4 || s[0] < 128) ==> UnpackDigits(s, i).Some?
    ensures s != [] && i < 4 && s[0] >= 128 ==>
              (UnpackDigits(s, i).Some? <==> UnpackDigits(s[1..], i + 1).Some?)
  {
  }

  lemma {:induction false} Prepended(b: byte, bs: bytes, i: nat)
    requires i < 4 && b >= 128 && NumberFrom(bs, i + 1)
    ensures NumberFrom([b] + bs, i)
  {
    var all := [b] + bs;
    assert all[|all| - 1] == bs[|bs| - 1];
    forall j | 0 <= j < |all| - 1 ensures all[j] >= 128 {
      assert j > 0 ==> all[j] == bs[j - 1];
    }
  }

  lemma {:induction false} DigitsEnd(s: bytes, i: nat) returns (n: nat)
    requires i <= 4
    ensures n <= |s|
    ensures UnpackDigits(s, i).Some? ==> NumberFrom(s[..n], i)
    ensures UnpackDigits(s, i).None? ==> |s| < 5 - i && forall j | 0 <= j < |s| :: s[j] >= 128
    decreases |s|
  {
    hide UnpackDigits;
    n := 0;
    EndsOrGoesOn(s, i);
    if s != [] {
      if i == 4 || s[0] < 128 {
        n := 1;
      } else {
        var m := DigitsEnd(s[1..], i + 1);
        n := m + 1;
        assert s[..n] == [s[0]] + s[1..][..m];
        if UnpackDigits(s, i).Some? {
          Prepended(s[0], s[1..][..m], i);
        }
        assert forall j | 0 < j < |s| :: s[j] == s[1..][j - 1];
      }
    }
  }

  /** Every number is read, however long it is written; reading fails exactly where the bytes end too early. */
  lemma {:induction false} UintExactly(s: bytes, n: nat, rest: bytes)
    ensures UnpackUint(s) == Some((n, rest)) <==> exists bs :: OneNumber(bs) && s == bs + rest && Number(bs, 0) == n
    ensures UnpackUint(s).None? <==> |s| < 5 && forall j | 0 <= j < |s| :: s[j] >= 128
  {
    forall bs: bytes, r: bytes | OneNumber(bs) && s == bs + r ensures UnpackUint(s) == Some((Number(bs, 0), r)) {
      DigitsRead(bs, 0, r);
    }
    var k := DigitsEnd(s, 0);
    if UnpackUint(s).Some? {
      var bs := s[..k];
      assert OneNumber(bs) && s == bs + s[k..];
      if |s| < 5 {
        assert s[k - 1] < 128;
      }
    }
  }

  /* ---------- optionals ---------- */

  /** A built-in optional has a flag of zero or one before the value. */
  lemma {:induction false} FlagReads(c: Codec, flag: byte, s: bytes)
    ensures UnpackBuiltin(c, [flag] + s, false, true) ==
            if flag == 0 then Some((Null, s)) else if flag == 1 then c.unpack(s) else None
    ensures UnpackBuiltin(c, [], false, true) == None
  {
    assert ([flag] + s)[1..] == s;
  }

  /** An optional of another type, which cannot be packed, is unpacked all the same: a zero is null, and after
      any other flag a value that packed under its own type is read back. */
  lemma {:induction false} OptionalReads(sch: Schema, t: string, item: string, flag: byte, v: Value, allow: bool, dp: nat, du: nat, rest: bytes)
    requires Sound(sch) && UnpackShape(sch, t) == OptionalOf(item)
    ensures Unpack(sch, t, [0] + rest, du + 1) == Some((Null, rest)) && Unpack(sch, t, [], du + 1) == None
    ensures var log := Pack(sch, item, v, allow, dp);
            log.Some? && Fits(log.value, rest) && Decodable(sch, item, v, du) && flag != 0 ==>
              Unpack(sch, t, [flag] + (Bytes(log.value) + rest), du + 1) == Some((Norm(sch, item, v, du), rest))
  {
    hide Sound, Pack, UnpackShape, Decodable, Norm, Bytes, Fits;
    assert ([0] + rest)[1..] == rest;
    if Pack(sch, item, v, allow, dp).Some? && Fits(Pack(sch, item, v, allow, dp).value, rest) {
      var body := Bytes(Pack(sch, item, v, allow, dp).value) + rest;
      RoundTrip(sch, item, v, allow, dp, du, rest);
      assert ([flag] + body)[1..] == body;
    }
  }
}
