/** Fixed-width integers and their byte encodings, as the `bytes` crate's
    `put_*_be` / `get_*_be` and bincode's little-endian integers lay them out. */
module Bytes {

  type byte = x: int | 0 <= x < 0x100
  type u16 = x: int | 0 <= x < 0x1_0000

  const U32_LIMIT: int := 0x1_0000_0000
  type u32 = x: int | 0 <= x < 0x1_0000_0000

  const I64_MIN: int := -0x8000_0000_0000_0000
  const I64_MAX: int := 0x7FFF_FFFF_FFFF_FFFF
  const U64_LIMIT: int := 0x1_0000_0000_0000_0000

  predicate InI64(t: int) {
    I64_MIN <= t <= I64_MAX
  }

  /** `x += 1` / `fetch_add(1)` on a `u32`: wraps to 0 past the maximum. */
  function WrappingInc(x: u32): u32 {
    if x == U32_LIMIT - 1 then 0 else x + 1
  }

  function Pow256(k: nat): (r: nat)
    ensures r > 0
  {
    if k == 0 then 1 else 256 * Pow256(k - 1)
  }

  lemma Pow256Values()
    ensures Pow256(4) == U32_LIMIT
    ensures Pow256(8) == U64_LIMIT
  {
    assert Pow256(2) == 0x1_0000;
    assert Pow256(4) == 0x1_0000_0000;
    assert Pow256(6) == 0x1_0000_0000_0000;
  }

  /** `put_u32_be`: four bytes, most significant first. */
  function U32ToBE(x: u32): (r: seq<byte>)
    ensures |r| == 4
  {
    var hi, lo := x / 0x1_0000, x % 0x1_0000;
    [hi / 0x100, hi % 0x100, lo / 0x100, lo % 0x100]
  }

  /** `get_u32_be` on exactly four bytes. */
  function U32FromBE(s: seq<byte>): u32
    requires |s| == 4
  {
    ((s[0] as int) * 0x100 + s[1]) * 0x1_0000 + (s[2] as int) * 0x100 + s[3]
  }

  lemma DivMod256(hi: nat, lo: byte)
    ensures (hi * 0x100 + lo) / 0x100 == hi
    ensures (hi * 0x100 + lo) % 0x100 == lo
  {
  }

  lemma DivMod65536(hi: nat, lo: nat)
    requires lo < 0x1_0000
    ensures (hi * 0x1_0000 + lo) / 0x1_0000 == hi
    ensures (hi * 0x1_0000 + lo) % 0x1_0000 == lo
  {
  }

  lemma U32RoundTrip(x: u32)
    ensures U32FromBE(U32ToBE(x)) == x
  {
  }

  lemma U32FromToBE(s: seq<byte>)
    requires |s| == 4
    ensures U32ToBE(U32FromBE(s)) == s
  {
    var hi, lo := (s[0] as int) * 0x100 + s[1], (s[2] as int) * 0x100 + s[3];
    DivMod65536(hi, lo);
    DivMod256(s[0], s[1]);
    DivMod256(s[2], s[3]);
  }

  /** A u64 (the two's complement bit pattern of an i64) as two u32
      halves. */
  function U64Of(t: int): (u: nat)
    requires InI64(t)
    ensures u < U64_LIMIT
  {
    if t < 0 then t + U64_LIMIT else t
  }

  /** `put_i64_be`: two's complement, most significant byte first. */
  function I64ToBE(t: int): (r: seq<byte>)
    requires InI64(t)
    ensures |r| == 8
  {
    var u := U64Of(t);
    U32ToBE(u / U32_LIMIT) + U32ToBE(u % U32_LIMIT)
  }

  /** `get_i64_be` on exactly eight bytes. */
  function I64FromBE(s: seq<byte>): (t: int)
    requires |s| == 8
    ensures InI64(t)
  {
    var u := U32FromBE(s[..4]) * U32_LIMIT + U32FromBE(s[4..]);
    if u > I64_MAX then u - U64_LIMIT else u
  }

  lemma I64RoundTrip(t: int)
    requires InI64(t)
    ensures I64FromBE(I64ToBE(t)) == t
  {
    var u := U64Of(t);
    var s := I64ToBE(t);
    assert s[..4] == U32ToBE(u / U32_LIMIT) && s[4..] == U32ToBE(u % U32_LIMIT);
    U32RoundTrip(u / U32_LIMIT);
    U32RoundTrip(u % U32_LIMIT);
  }

  lemma I64FromToBE(s: seq<byte>)
    requires |s| == 8
    ensures I64ToBE(I64FromBE(s)) == s
  {
    var hi, lo := U32FromBE(s[..4]), U32FromBE(s[4..]);
    var u := hi * U32_LIMIT + lo;
    assert U64Of(I64FromBE(s)) == u;
    assert u / U32_LIMIT == hi && u % U32_LIMIT == lo;
    U32FromToBE(s[..4]);
    U32FromToBE(s[4..]);
    assert s == s[..4] + s[4..];
  }

  /** The low k bytes of n, least significant first. */
  function ToLE(n: nat, k: nat): (r: seq<byte>)
    ensures |r| == k
  {
    if k == 0 then [] else [n % 256] + ToLE(n / 256, k - 1)
  }

  /** The unsigned number that s spells, least significant byte first. */
  function FromLE(s: seq<byte>): (r: nat)
    ensures r < Pow256(|s|)
  {
    if s == [] then 0
    else
      var hi := FromLE(s[1..]);
      assert s[0] + 256 * hi < 256 * Pow256(|s| - 1) by {
        assert hi <= Pow256(|s| - 1) - 1;
      }
      s[0] + 256 * hi
  }

  lemma {:induction false} FromToLE(n: nat, k: nat)
    requires n < Pow256(k)
    ensures FromLE(ToLE(n, k)) == n
  {
    if k > 0 {
      var s := ToLE(n, k);
      assert s[1..] == ToLE(n / 256, k - 1);
      FromToLE(n / 256, k - 1);
    }
  }

  /** Every byte string is the little-endian encoding, at its own width, of
      the number it spells. */
  lemma {:induction false} ToFromLE(s: seq<byte>)
    ensures ToLE(FromLE(s), |s|) == s
  {
    if s != [] {
      var hi := FromLE(s[1..]);
      DivMod256(hi, s[0]);
      assert FromLE(s) == hi * 0x100 + s[0];
      ToFromLE(s[1..]);
    }
  }
}
