/**
  The little-endian byte codecs `as_u32_le`, `u32_as_u8_le` and `u64_as_u8_le`.

  `main.rs` builds and reads bytes with shifts and masks on unsigned integers:
  `(x >> 8*i) & 0xff` is `(x / 256^i) % 256`, and OR-ing the shifted bytes of
  `as_u32_le` is a sum because their bit ranges do not overlap. Both codecs are
  related here to one reference definition of little-endian numbers,
  `FromLe`/`ToLe`, over any number of bytes.
*/
module LittleEndian {
  import opened Types

  function Pow256(n: nat): (r: nat)
    ensures r >= 1
  {
    if n == 0 then 1 else 256 * Pow256(n - 1)
  }

  /** The number a little-endian byte string denotes: byte i weighs 256^i. */
  function FromLe(s: seq<byte>): (r: nat)
    ensures r < Pow256(|s|)
  {
    if |s| == 0 then 0 else s[0] + 256 * FromLe(s[1..])
  }

  /** The n low-order bytes of x, least significant first. */
  function ToLe(x: nat, n: nat): (r: seq<byte>)
    ensures |r| == n
  {
    if n == 0 then [] else [x % 256] + ToLe(x / 256, n - 1)
  }

  /** Byte i of the encoding is `(x >> 8*i) & 0xff`. */
  lemma {:induction false} ToLeByte(x: nat, n: nat, i: nat)
    requires i < n
    ensures ToLe(x, n)[i] == (x / Pow256(i)) % 256
  {
    if i > 0 {
      ToLeByte(x / 256, n - 1, i - 1);
      DivDiv(x, Pow256(i - 1));
    }
  }

  lemma DivDiv(x: nat, p: nat)
    requires p >= 1
    ensures x / 256 / p == x / (256 * p)
  {
    var q := x / 256;
    var r := x % 256;
    var q2 := q / p;
    var r2 := q % p;
    assert q == p * q2 + r2;
    assert x == 256 * q + r;
    assert 256 * q == 256 * (p * q2) + 256 * r2;
    assert 256 * (p * q2) == (256 * p) * q2;
    assert 256 * r2 + r < 256 * p by {
      assert r2 <= p - 1;
      assert 256 * r2 <= 256 * p - 256;
    }
    DivUnique(x, 256 * p, q2, 256 * r2 + r);
  }

  lemma DivUnique(x: int, d: int, q: int, r: int)
    requires d > 0 && 0 <= r < d && x == d * q + r
    ensures x / d == q
  {
    var q' := x / d;
    var r' := x % d;
    assert d * q' + r' == d * q + r;
    if q' < q {
      assert d * (q - q') == r' - r;
      MulAtLeast(d, q - q');
    } else if q' > q {
      assert d * (q' - q) == r - r';
      MulAtLeast(d, q' - q);
    }
  }

  lemma {:induction false} MulAtLeast(d: nat, k: nat)
    requires k >= 1
    ensures d * k >= d
  {
    if k > 1 {
      MulAtLeast(d, k - 1);
      assert d * k == d * (k - 1) + d;
    }
  }

  /** Decoding an encoding gives back the number, when it fits in n bytes. */
  lemma {:induction false} FromToLe(x: nat, n: nat)
    requires x < Pow256(n)
    ensures FromLe(ToLe(x, n)) == x
  {
    if n > 0 {
      var t := ToLe(x, n);
      assert t[1..] == ToLe(x / 256, n - 1);
      FromToLe(x / 256, n - 1);
    }
  }

  /** Encoding a decoded byte string with its own width gives back the bytes. */
  lemma {:induction false} ToFromLe(s: seq<byte>)
    ensures ToLe(FromLe(s), |s|) == s
  {
    if |s| > 0 {
      var x := FromLe(s);
      assert x % 256 == s[0];
      assert x / 256 == FromLe(s[1..]);
      ToFromLe(s[1..]);
    }
  }

  /** `as_u32_le`: the first four bytes of `a`, little-endian. */
  function AsU32Le(a: seq<byte>): (r: u32)
    requires |a| >= 4
    ensures r == FromLe(a[..4])
  {
    var s := a[..4];
    assert s[1..][1..][1..][1..] == [];
    assert FromLe(s[1..][1..][1..]) == a[3];
    var b1, b2, b3: int := a[1], a[2], a[3];
    assert FromLe(s[1..][1..]) == b2 + 256 * b3;
    assert FromLe(s[1..]) == b1 + 256 * (b2 + 256 * b3);
    a[0] + a[1] as int * 0x100 + a[2] as int * 0x1_0000 + a[3] as int * 0x100_0000
  }

  /** `u32_as_u8_le`: the four bytes of x, least significant first. */
  function U32AsU8Le(x: u32): (r: seq<byte>)
    ensures r == ToLe(x, 4)
  {
    ToLeFour(x);
    [x % 0x100, (x / 0x100) % 0x100, (x / 0x1_0000) % 0x100, (x / 0x100_0000) % 0x100]
  }

  lemma ToLeFour(x: nat)
    ensures ToLe(x, 4) == [x % 0x100, (x / 0x100) % 0x100, (x / 0x1_0000) % 0x100, (x / 0x100_0000) % 0x100]
  {
    assert Pow256(1) == 0x100;
    assert Pow256(2) == 0x1_0000;
    assert Pow256(3) == 0x100_0000;
    forall i | 0 <= i < 4
      ensures ToLe(x, 4)[i] == (x / Pow256(i)) % 256
    {
      ToLeByte(x, 4, i);
    }
  }

  /** `u64_as_u8_le`: the eight bytes of x, least significant first. */
  function U64AsU8Le(x: u64): (r: seq<byte>)
    ensures r == ToLe(x, 8)
  {
    ToLeEight(x);
    [x % 0x100, (x / 0x100) % 0x100, (x / 0x1_0000) % 0x100, (x / 0x100_0000) % 0x100,
     (x / 0x1_0000_0000) % 0x100, (x / 0x100_0000_0000) % 0x100,
     (x / 0x1_0000_0000_0000) % 0x100, (x / 0x100_0000_0000_0000) % 0x100]
  }

  lemma Pow256Table()
    ensures Pow256(1) == 0x100 && Pow256(2) == 0x1_0000 && Pow256(3) == 0x100_0000
    ensures Pow256(4) == 0x1_0000_0000 && Pow256(5) == 0x100_0000_0000
    ensures Pow256(6) == 0x1_0000_0000_0000 && Pow256(7) == 0x100_0000_0000_0000
    ensures Pow256(8) == 0x1_0000_0000_0000_0000
  {
  }

  lemma ToLeEight(x: nat)
    ensures ToLe(x, 8) ==
      [x % 0x100, (x / 0x100) % 0x100, (x / 0x1_0000) % 0x100, (x / 0x100_0000) % 0x100,
       (x / 0x1_0000_0000) % 0x100, (x / 0x100_0000_0000) % 0x100,
       (x / 0x1_0000_0000_0000) % 0x100, (x / 0x100_0000_0000_0000) % 0x100]
  {
    Pow256Table();
    forall i | 0 <= i < 8
      ensures ToLe(x, 8)[i] == (x / Pow256(i)) % 256
    {
      ToLeByte(x, 8, i);
    }
  }

  /** Byte i of `u64_as_u8_le(x)` is `(x >> 8*i) & 0xff`. */
  lemma U64Byte(x: u64, i: nat)
    requires i < 8
    ensures U64AsU8Le(x)[i] == (x / Pow256(i)) % 256
  {
    ToLeByte(x, 8, i);
  }

  /** Decoding an encoded u32 yields the same number. */
  lemma U32RoundTrip(x: u32)
    ensures AsU32Le(U32AsU8Le(x)) == x
  {
    var e := U32AsU8Le(x);
    assert e[..4] == e;
    assert Pow256(4) == 0x1_0000_0000;
    FromToLe(x, 4);
  }

  /** Encoding four decoded bytes yields the same bytes. */
  lemma U32BytesRoundTrip(a: seq<byte>)
    requires |a| == 4
    ensures U32AsU8Le(AsU32Le(a)) == a
  {
    assert a[..4] == a;
    ToFromLe(a);
  }

  /** The eight bytes of `u64_as_u8_le` denote x again, little-endian. */
  lemma U64Decodes(x: u64)
    ensures FromLe(U64AsU8Le(x)) == x
  {
    Pow256Table();
    FromToLe(x, 8);
  }
}
