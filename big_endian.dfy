/** Fixed-width big-endian integers, as Rust's `u64::to_be_bytes` and
    `u64::from_be_bytes` lay them out. */
module BigEndian {
  import opened Common

  function Pow256(n: nat): (r: nat)
    ensures r >= 1
  {
    if n == 0 then 1 else 256 * Pow256(n - 1)
  }

  const U64Bound: nat := 0x1_0000_0000_0000_0000

  /** Rust `u64`. */
  newtype u64 = x: int | 0 <= x < 0x1_0000_0000_0000_0000

  /** The low `n` bytes of `x`, most significant first. */
  function Encode(x: nat, n: nat): (r: seq<byte>)
    ensures |r| == n
  {
    if n == 0 then [] else Encode(x / 256, n - 1) + [(x % 256) as byte]
  }

  /** The number whose big-endian bytes are `b`. */
  function Decode(b: seq<byte>): (r: nat)
    ensures r < Pow256(|b|)
  {
    if b == [] then 0
    else
      var high := Decode(b[..|b| - 1]);
      assert high + 1 <= Pow256(|b| - 1);
      assert (high + 1) * 256 <= Pow256(|b| - 1) * 256;
      high * 256 + b[|b| - 1] as nat
  }

  lemma {:induction false} DecodeEncode(x: nat, n: nat)
    requires x < Pow256(n)
    ensures Decode(Encode(x, n)) == x
  {
    if n > 0 {
      DecodeEncode(x / 256, n - 1);
      var e := Encode(x, n);
      assert e[..n - 1] == Encode(x / 256, n - 1);
    }
  }

  lemma {:induction false} EncodeDecode(b: seq<byte>)
    ensures Encode(Decode(b), |b|) == b
  {
    if b != [] {
      var n := |b|;
      var high := Decode(b[..n - 1]);
      EncodeDecode(b[..n - 1]);
      DivModByte(high, b[n - 1] as nat);
      assert b == b[..n - 1] + [b[n - 1]];
    }
  }

  /** Splitting `h * 256 + c` back into `h` and `c`. */
  lemma DivModByte(h: nat, c: nat)
    requires c < 256
    ensures (h * 256 + c) / 256 == h && (h * 256 + c) % 256 == c
  {
  }

  lemma Pow256Of8()
    ensures Pow256(8) == U64Bound
  {
  }

  /** `u64::to_be_bytes`: eight bytes whose big-endian value is `x`. */
  function U64ToBe(x: u64): (r: seq<byte>)
    ensures |r| == 8 && Decode(r) == x as nat
  {
    Pow256Of8();
    DecodeEncode(x as nat, 8);
    Encode(x as nat, 8)
  }

  /** `u64::from_be_bytes`: the value whose `to_be_bytes` are `b`. */
  function U64FromBe(b: seq<byte>): (r: u64)
    requires |b| == 8
    ensures U64ToBe(r) == b
  {
    Pow256Of8();
    EncodeDecode(b);
    Decode(b) as u64
  }

  /** `from_be_bytes` undoes `to_be_bytes`. */
  lemma U64FromToBe(x: u64)
    ensures U64FromBe(U64ToBe(x)) == x
  {
    var b := U64ToBe(x);
    assert Decode(b) == x as nat;
  }
}
