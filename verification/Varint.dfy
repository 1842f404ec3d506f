/** Variable length integers of the catalog format: 7 bits per byte, high bit set on all but the last. */
module Varint {
  import opened Common

  const TWO63: int := 0x8000_0000_0000_0000
  const TWO64: int := 0x1_0000_0000_0000_0000

  type u64 = x: int | 0 <= x < 0x1_0000_0000_0000_0000
  type i64 = x: int | -0x8000_0000_0000_0000 <= x < 0x8000_0000_0000_0000

  /** A decoded value and the bytes behind it. */
  datatype Read<+T> = Read(value: T, rest: Bytes)

  function Pow128(i: nat): (r: nat)
    ensures r > 0
  {
    if i == 0 then 1 else 128 * Pow128(i - 1)
  }

  /** Two's complement reinterpretation of the low 64 bits. */
  function AsI64(x: int): i64 {
    (x + TWO63) % TWO64 - TWO63
  }

  function AsU64(x: int): u64 {
    x % TWO64
  }

  lemma AsI64Exact(v: i64)
    ensures AsI64(v) == v
  {
  }

  lemma AsI64Inverse(v: u64)
    ensures AsU64(AsI64(v)) == v
  {
    if v < TWO63 {
      assert AsI64(v) == v;
    } else {
      assert AsI64(v) == v - TWO64;
    }
  }

  // ---- Encoding ----

  function EncodeNat(d: nat): (r: Bytes)
    ensures |r| > 0
  {
    if d < 128 then [d] else [128 + d % 128] + EncodeNat(d / 128)
  }

  /** The magnitude of a negative number: every byte has the high bit set, then a zero byte. */
  function EncodeNegated(d: nat): (r: Bytes)
    ensures |r| > 0
  {
    if d < 128 then [128 + d, 0] else [128 + d % 128] + EncodeNegated(d / 128)
  }

  function EncodeU64(v: u64): Bytes {
    EncodeNat(v)
  }

  function EncodeI64(v: i64): Bytes {
    if v < 0 then EncodeNegated(0 - v) else EncodeNat(v)
  }

  method CatalogEncodeU64(v: u64) returns (enc: Bytes)
    ensures enc == EncodeU64(v)
  {
    enc := [];
    var d: nat := v;
    while d >= 128
      invariant enc + EncodeNat(d) == EncodeNat(v)
    {
      ConcatAssoc(enc, [128 + d % 128], EncodeNat(d / 128));
      enc := enc + [128 + d % 128];
      d := d / 128;
    }
    enc := enc + [d];
  }

  /** The 7 bit groups of a magnitude, with or without the terminator of negative values. */
  function EncodeDigits(negative: bool, d: nat): Bytes {
    if negative then EncodeNegated(d) else EncodeNat(d)
  }

  lemma DigitsStep(negative: bool, d: nat)
    ensures d >= 128 ==> EncodeDigits(negative, d) == [128 + d % 128] + EncodeDigits(negative, d / 128)
    ensures d < 128 ==> EncodeDigits(negative, d) == if negative then [128 + d, 0] else [d]
  {
  }

  method CatalogEncodeI64(v: i64) returns (enc: Bytes)
    ensures enc == EncodeI64(v)
  {
    hide EncodeNat, EncodeNegated;
    enc := [];
    // -(v + 1) fits an i64 even for the smallest one
    var d: nat := if v < 0 then -1 * (v + 1) + 1 else v;
    while d >= 128
      invariant enc + EncodeDigits(v < 0, d) == EncodeI64(v)
    {
      DigitsStep(v < 0, d);
      ConcatAssoc(enc, [128 + d % 128], EncodeDigits(v < 0, d / 128));
      enc := enc + [128 + d % 128];
      d := d / 128;
    }
    DigitsStep(v < 0, d);
    enc := enc + (if v < 0 then [128 + d, 0] else [d]);
  }

  /** Byte i holds bits 7 i to 7 i + 6, and its high bit says whether another byte follows. */
  lemma {:induction false} U64Layout(v: nat, i: nat)
    requires i < |EncodeNat(v)|
    ensures EncodeNat(v)[i] % 128 == v / Pow128(i) % 128
    ensures EncodeNat(v)[i] >= 128 <==> i < |EncodeNat(v)| - 1
  {
    if i == 0 {
      assert v / 1 == v;
    } else {
      U64Layout(v / 128, i - 1);
      DivDiv(v, 128, Pow128(i - 1));
    }
  }

  /** The same groups for the magnitude of a negative value, all with the high bit, and a zero byte behind them. */
  lemma {:induction false} NegativeLayout(d: nat, i: nat)
    requires i < |EncodeNegated(d)|
    ensures |EncodeNegated(d)| == |EncodeNat(d)| + 1
    ensures EncodeNegated(d)[i] ==
      if i == |EncodeNegated(d)| - 1 then 0 else 128 + d / Pow128(i) % 128
  {
    if d >= 128 {
      if i == 0 {
        NegativeLayout(d / 128, 0);
        assert d / 1 == d;
      } else {
        NegativeLayout(d / 128, i - 1);
        DivDiv(d, 128, Pow128(i - 1));
      }
    } else if i == 0 {
      assert d / 1 == d;
    }
  }

  // ---- Decoding ----

  /** Bits of byte number i, shifted into a u64; all lower bits of v are the only ones set so far. */
  function Accumulate(v: nat, t: byte, i: nat): nat {
    v + ((t % 128) * Pow128(i)) % TWO64
  }

  function DecodeU64From(data: Bytes, i: nat, v: nat): Result<Read<u64>>
    requires i <= 10
    decreases 10 - i
  {
    if i == 10 || data == [] then Err
    else
      var v' := Accumulate(v, data[0], i);
      if data[0] < 128 then Ok(Read(AsU64(v'), data[1..])) else DecodeU64From(data[1..], i + 1, v')
  }

  /** At most 10 bytes. */
  function DecodeU64(data: Bytes): Result<Read<u64>> {
    DecodeU64From(data, 0, 0)
  }

  /** The value behind the zero terminator; covers the smallest i64. */
  function NegatedValue(v: nat): i64 {
    if v == 0 then 0 else AsI64(0 - v as int)
  }

  function DecodeI64From(data: Bytes, i: nat, v: nat): Result<Read<i64>>
    requires i <= 11
    decreases 11 - i
  {
    if i == 11 || data == [] then Err
    else if data[0] == 0 then Ok(Read(NegatedValue(v), data[1..]))
    else if i == 10 then Err // a shift by 70 bits overflows
    else
      var v' := Accumulate(v, data[0], i);
      if data[0] < 128 then Ok(Read(AsI64(v'), data[1..])) else DecodeI64From(data[1..], i + 1, v')
  }

  /** At most 11 bytes. */
  function DecodeI64(data: Bytes): Result<Read<i64>> {
    DecodeI64From(data, 0, 0)
  }

  method CatalogDecodeU64(data: Bytes) returns (r: Result<Read<u64>>)
    ensures r == DecodeU64(data)
  {
    var v, cursor := 0, data;
    for i := 0 to 10
      invariant DecodeU64(data) == DecodeU64From(cursor, i, v)
    {
      if cursor == [] {
        return Err;
      }
      var t := cursor[0];
      cursor := cursor[1..];
      v := Accumulate(v, t, i);
      if t < 128 {
        return Ok(Read(AsU64(v), cursor));
      }
    }
    return Err;
  }

  method CatalogDecodeI64(data: Bytes) returns (r: Result<Read<i64>>)
    ensures r == DecodeI64(data)
  {
    var v, cursor := 0, data;
    for i := 0 to 11
      invariant DecodeI64(data) == DecodeI64From(cursor, i, v)
    {
      if cursor == [] {
        return Err;
      }
      var t := cursor[0];
      cursor := cursor[1..];
      if t == 0 {
        return Ok(Read(NegatedValue(v), cursor));
      }
      if i == 10 {
        return Err;
      }
      v := Accumulate(v, t, i);
      if t < 128 {
        return Ok(Read(AsI64(v), cursor));
      }
    }
    return Err;
  }

  // ---- Round trips ----

  /** One digit: the invariant of both decoders while reading back an encoding. */
  lemma AccumulateDigit(v: nat, d: nat, i: nat, b: byte)
    requires b % 128 == d % 128 && v + d * Pow128(i) < TWO64
    ensures Accumulate(v, b, i) == v + d % 128 * Pow128(i)
    ensures v + d * Pow128(i) == Accumulate(v, b, i) + d / 128 * Pow128(i + 1)
  {
    var p := Pow128(i);
    assert d == d % 128 + d / 128 * 128;
    assert d * p == d % 128 * p + d / 128 * (128 * p);
    assert 0 <= d % 128 * p <= d * p;
  }

  /** 128^i stays below 2^64 exactly for the first ten digits. */
  lemma DigitsFit(d: nat, v: nat, i: nat)
    requires d >= 1 && v + d * Pow128(i) < TWO64
    ensures i <= 9
  {
    hide Pow128;
    MulLess(0, d, Pow128(i));
    if i > 9 {
      Pow128At10(i);
    }
  }

  lemma {:induction false} Pow128At10(i: nat)
    requires i >= 10
    ensures Pow128(i) >= 64 * TWO64
  {
    if i == 10 {
      assert Pow128(5) == 0x8_0000_0000;
      assert Pow128(10) == 128 * 128 * 128 * 128 * 128 * Pow128(5);
    } else {
      Pow128At10(i - 1);
    }
  }

  lemma {:induction false} DecodeU64Reads(d: nat, rest: Bytes, i: nat, v: nat)
    requires v + d * Pow128(i) < TWO64 && i <= 9
    ensures DecodeU64From(EncodeNat(d) + rest, i, v) == Ok(Read(v + d * Pow128(i), rest))
    ensures i + |EncodeNat(d)| <= 10
  {
    hide Accumulate, Pow128;
    var enc := EncodeNat(d) + rest;
    AccumulateDigit(v, d, i, enc[0]);
    if d >= 128 {
      DigitsFit(d / 128, Accumulate(v, enc[0], i), i + 1);
      DecodeU64Reads(d / 128, rest, i + 1, Accumulate(v, enc[0], i));
      assert enc[1..] == EncodeNat(d / 128) + rest;
    } else {
      assert enc[1..] == rest;
    }
  }

  /** Every u64 is read back from at most 10 bytes, whatever follows it. */
  lemma U64RoundTrip(v: u64, rest: Bytes)
    ensures DecodeU64(EncodeU64(v) + rest) == Ok(Read(v, rest))
    ensures |EncodeU64(v)| <= 10
  {
    DecodeU64Reads(v, rest, 0, 0);
  }

  lemma {:induction false} DecodeI64ReadsNat(d: nat, rest: Bytes, i: nat, v: nat)
    requires v + d * Pow128(i) < TWO64 && i <= 9 && (d >= 1 || (i == 0 && v == 0))
    ensures DecodeI64From(EncodeNat(d) + rest, i, v) == Ok(Read(AsI64(v + d * Pow128(i)), rest))
    ensures i + |EncodeNat(d)| <= 10
  {
    hide Accumulate, Pow128, AsI64;
    if d >= 128 {
      hide DecodeI64From;
      var b := 128 + d % 128;
      AccumulateDigit(v, d, i, b);
      DigitsFit(d / 128, Accumulate(v, b, i), i + 1);
      DecodeI64ReadsNat(d / 128, rest, i + 1, Accumulate(v, b, i));
      FirstDigit(EncodeNat(d), d % 128, EncodeNat(d / 128), rest, i, v);
    } else {
      var enc := EncodeNat(d) + rest;
      AccumulateDigit(v, d, i, enc[0]);
      AsI64Exact(0);
      assert enc[1..] == rest;
    }
  }

  /** A digit that announces more is accumulated, and decoding goes on behind it. */
  lemma FirstDigit(enc: Bytes, digit: nat, more: Bytes, rest: Bytes, i: nat, v: nat)
    requires digit < 128 && i <= 9 && enc == [128 + digit] + more
    ensures DecodeI64From(enc + rest, i, v) == DecodeI64From(more + rest, i + 1, Accumulate(v, 128 + digit, i))
  {
    hide Accumulate;
    assert (enc + rest)[1..] == more + rest;
  }

  lemma {:induction false} DecodeI64ReadsNegated(d: nat, rest: Bytes, i: nat, v: nat)
    requires v + d * Pow128(i) < TWO64 && i <= 9 && d >= 1
    ensures DecodeI64From(EncodeNegated(d) + rest, i, v) == Ok(Read(AsI64(0 - (v + d * Pow128(i))), rest))
    ensures i + |EncodeNegated(d)| <= 11
  {
    hide Accumulate, Pow128, AsI64, DecodeI64From;
    if d >= 128 {
      var b := 128 + d % 128;
      AccumulateDigit(v, d, i, b);
      DigitsFit(d / 128, Accumulate(v, b, i), i + 1);
      DecodeI64ReadsNegated(d / 128, rest, i + 1, Accumulate(v, b, i));
      FirstDigit(EncodeNegated(d), d % 128, EncodeNegated(d / 128), rest, i, v);
    } else {
      LastNegated(d, rest, i, v);
    }
  }

  /** The last digit and the terminator. */
  lemma LastNegated(d: nat, rest: Bytes, i: nat, v: nat)
    requires 1 <= d < 128 && v + d * Pow128(i) < TWO64 && i <= 9
    ensures DecodeI64From([128 + d, 0] + rest, i, v) == Ok(Read(AsI64(0 - (v + d * Pow128(i))), rest))
  {
    hide Accumulate, Pow128, AsI64;
    var enc := [128 + d, 0] + rest;
    AccumulateDigit(v, d, i, enc[0]);
    Pow128Positive(d, i);
    assert enc[1..] == [0] + rest && ([0] + rest)[1..] == rest;
  }

  lemma {:induction false} Pow128Positive(d: nat, i: nat)
    requires d >= 1
    ensures d * Pow128(i) > 0
  {
    if i > 0 {
      Pow128Positive(d, i - 1);
      assert d * Pow128(i) == 128 * (d * Pow128(i - 1));
    }
  }

  /** Every i64 is read back from at most 11 bytes; a trailing zero byte always means "negative". */
  lemma I64RoundTrip(v: i64, rest: Bytes)
    ensures DecodeI64(EncodeI64(v) + rest) == Ok(Read(v, rest))
    ensures |EncodeI64(v)| <= 11
  {
    hide AsI64, DecodeI64From;
    AsI64Exact(v);
    assert Pow128(0) == 1;
    if v < 0 {
      DecodeI64ReadsNegated(0 - v, rest, 0, 0);
    } else {
      DecodeI64ReadsNat(v, rest, 0, 0);
    }
  }

  /** The signed decoder reads unsigned values, up to reinterpretation as u64. */
  lemma I64Compatibility(v: u64, rest: Bytes)
    ensures var r := DecodeI64(EncodeU64(v) + rest);
            r.Ok? && AsU64(r.value.value) == v && r.value.rest == rest
  {
    hide AsI64, AsU64, DecodeI64From;
    AsI64Inverse(v);
    assert Pow128(0) == 1;
    DecodeI64ReadsNat(v, rest, 0, 0);
  }

  lemma {:induction false} U64KeepsReading(data: Bytes, i: nat, v: nat)
    requires i <= 10 && |data| >= 10 - i && forall k :: 0 <= k < 10 - i ==> data[k] >= 128
    ensures DecodeU64From(data, i, v).Err?
    decreases 10 - i
  {
    hide Accumulate;
    if i < 10 {
      U64KeepsReading(data[1..], i + 1, Accumulate(v, data[0], i));
    }
  }

  lemma {:induction false} I64KeepsReading(data: Bytes, i: nat, v: nat)
    requires i <= 11 && |data| >= 11 - i && forall k :: 0 <= k < 11 - i ==> data[k] >= 128
    ensures DecodeI64From(data, i, v).Err?
    decreases 11 - i
  {
    hide Accumulate;
    if i < 10 {
      I64KeepsReading(data[1..], i + 1, Accumulate(v, data[0], i));
    }
  }

  /** Ten bytes that announce more are refused as unsigned, eleven as signed. */
  lemma OverlongRefused(data: Bytes)
    ensures |data| >= 10 && (forall k :: 0 <= k < 10 ==> data[k] >= 128) ==> DecodeU64(data).Err?
    ensures |data| >= 11 && (forall k :: 0 <= k < 11 ==> data[k] >= 128) ==> DecodeI64(data).Err?
  {
    hide DecodeU64From, DecodeI64From;
    if |data| >= 10 && forall k :: 0 <= k < 10 ==> data[k] >= 128 {
      U64KeepsReading(data, 0, 0);
    }
    if |data| >= 11 && forall k :: 0 <= k < 11 ==> data[k] >= 128 {
      I64KeepsReading(data, 0, 0);
    }
  }
}
