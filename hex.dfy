/** The `hex` crate's `encode` (lowercase, two digits per byte, high nibble
    first) and `decode` (either case accepted; odd length or a non-hex
    character is an error). */
module Hex {
  import opened Common

  /** The lowercase hex digit for a nibble. */
  function Digit(n: int): (c: char)
    requires 0 <= n < 16
    ensures '0' <= c <= '9' || 'a' <= c <= 'f'
  {
    if n < 10 then ('0' as int + n) as char else ('a' as int + n - 10) as char
  }

  /** The nibble a hex digit stands for, in either case. */
  function DigitValue(c: char): (r: Option<int>)
    ensures r.Some? <==> ('0' <= c <= '9' || 'a' <= c <= 'f' || 'A' <= c <= 'F')
    ensures r.Some? ==> 0 <= r.value < 16
  {
    if '0' <= c <= '9' then Some(c as int - '0' as int)
    else if 'a' <= c <= 'f' then Some(c as int - 'a' as int + 10)
    else if 'A' <= c <= 'F' then Some(c as int - 'A' as int + 10)
    else None
  }

  predicate IsLowerHexChar(c: char) {
    '0' <= c <= '9' || 'a' <= c <= 'f'
  }

  /** `hex::encode`. */
  function Encode(b: seq<byte>): (s: string)
    ensures |s| == 2 * |b|
  {
    if b == [] then ""
    else [Digit(b[0] as int / 16), Digit(b[0] as int % 16)] + Encode(b[1..])
  }

  /** `hex::decode`. */
  function Decode(s: string): (r: Option<seq<byte>>)
    ensures r.Some? ==> |s| == 2 * |r.value|
    ensures |s| % 2 == 1 ==> r.None?
  {
    if |s| == 0 then Some([])
    else if |s| == 1 then None
    else
      match (DigitValue(s[0]), DigitValue(s[1]), Decode(s[2..]))
      case (Some(hi), Some(lo), Some(rest)) => Some([(hi * 16 + lo) as byte] + rest)
      case _ => None
  }

  /** Every character `Encode` writes is a lowercase hex digit. */
  lemma {:induction false} EncodeIsLowerHex(b: seq<byte>)
    ensures forall i :: 0 <= i < |Encode(b)| ==> IsLowerHexChar(Encode(b)[i])
  {
    if b != [] {
      EncodeIsLowerHex(b[1..]);
      var s := Encode(b);
      assert s[2..] == Encode(b[1..]);
      forall i | 0 <= i < |s| ensures IsLowerHexChar(s[i]) {
        if i >= 2 { assert s[i] == Encode(b[1..])[i - 2]; }
      }
    }
  }

  /** Decoding what `Encode` wrote gives back the bytes. */
  lemma {:induction false} DecodeEncode(b: seq<byte>)
    ensures Decode(Encode(b)) == Some(b)
  {
    if b != [] {
      DecodeEncode(b[1..]);
      var s := Encode(b);
      assert s[2..] == Encode(b[1..]);
      var hi, lo := b[0] as int / 16, b[0] as int % 16;
      assert DigitValue(s[0]) == Some(hi);
      assert DigitValue(s[1]) == Some(lo);
      assert [(hi * 16 + lo) as byte] + b[1..] == b;
    }
  }

  /** Distinct byte strings have distinct hex texts. */
  lemma EncodeInjective(a: seq<byte>, b: seq<byte>)
    requires Encode(a) == Encode(b)
    ensures a == b
  {
    DecodeEncode(a);
    DecodeEncode(b);
  }

  /** A text `Decode` accepts is re-encoded to itself once lowercased; in
      particular a lowercase hex text is exactly `Encode` of its decoding. */
  lemma {:induction false} EncodeDecode(s: string)
    requires forall i :: 0 <= i < |s| ==> IsLowerHexChar(s[i])
    requires Decode(s).Some?
    ensures Encode(Decode(s).value) == s
  {
    if |s| >= 2 {
      var rest := Decode(s[2..]).value;
      EncodeDecode(s[2..]);
      var hi, lo := DigitValue(s[0]).value, DigitValue(s[1]).value;
      var v := (hi * 16 + lo) as byte;
      assert v as int / 16 == hi && v as int % 16 == lo;
      assert Decode(s).value == [v] + rest;
      assert ([v] + rest)[1..] == rest;
      assert Digit(hi) == s[0] && Digit(lo) == s[1];
      assert s == [s[0], s[1]] + s[2..];
    }
  }
}
