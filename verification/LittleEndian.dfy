/** Little-endian packing of bytes into machine words, as `from_le_bytes` and
    `to_le_bytes` do it. Words are built by halves, so that every fact about a
    wide word reduces to one join or one split. */
module LittleEndian {

  type Block = b: seq<bv8> | |b| == 16 witness seq(16, _ => 0)

  function Join16(lo: bv8, hi: bv8): bv16 { (lo as bv16) | ((hi as bv16) << 8) }
  function Join32(lo: bv16, hi: bv16): bv32 { (lo as bv32) | ((hi as bv32) << 16) }
  function Join64(lo: bv32, hi: bv32): bv64 { (lo as bv64) | ((hi as bv64) << 32) }
  function Join128(lo: bv64, hi: bv64): bv128 { (lo as bv128) | ((hi as bv128) << 64) }

  function Lo16(x: bv16): bv8 { (x & 0xff) as bv8 }
  function Hi16(x: bv16): bv8 { (x >> 8) as bv8 }
  function Lo32(x: bv32): bv16 { (x & 0xffff) as bv16 }
  function Hi32(x: bv32): bv16 { (x >> 16) as bv16 }
  function Lo64(x: bv64): bv32 { (x & 0xffff_ffff) as bv32 }
  function Hi64(x: bv64): bv32 { (x >> 32) as bv32 }
  function Lo128(x: bv128): bv64 { (x & 0xffff_ffff_ffff_ffff) as bv64 }
  function Hi128(x: bv128): bv64 { (x >> 64) as bv64 }

  function FromLe32(b0: bv8, b1: bv8, b2: bv8, b3: bv8): bv32 {
    Join32(Join16(b0, b1), Join16(b2, b3))
  }

  function FromLe64(b: seq<bv8>): bv64
    requires |b| == 8
  {
    Join64(FromLe32(b[0], b[1], b[2], b[3]), FromLe32(b[4], b[5], b[6], b[7]))
  }

  /** `u128::from_le_bytes`. */
  function FromLe128(b: Block): bv128 {
    Join128(FromLe64(b[..8]), FromLe64(b[8..]))
  }

  function ToLe32(x: bv32): (b: seq<bv8>)
    ensures |b| == 4
  {
    [Lo16(Lo32(x)), Hi16(Lo32(x)), Lo16(Hi32(x)), Hi16(Hi32(x))]
  }

  function ToLe64(x: bv64): (b: seq<bv8>)
    ensures |b| == 8
  {
    ToLe32(Lo64(x)) + ToLe32(Hi64(x))
  }

  /** `u128::to_le_bytes`. */
  function ToLe128(x: bv128): Block {
    ToLe64(Lo128(x)) + ToLe64(Hi128(x))
  }

  function Xor8(x: bv8, y: bv8): bv8 { x ^ y }

  function XorBytes(a: seq<bv8>, b: seq<bv8>): (r: seq<bv8>)
    requires |a| == |b|
    ensures |r| == |a|
  {
    if a == [] then [] else
      XorBytes(a[..|a| - 1], b[..|b| - 1]) + [Xor8(a[|a| - 1], b[|b| - 1])]
  }

  lemma {:induction false} XorAt(a: seq<bv8>, b: seq<bv8>, i: nat)
    requires i < |a| == |b|
    ensures XorBytes(a, b)[i] == Xor8(a[i], b[i])
  {
    if i < |a| - 1 {
      XorAt(a[..|a| - 1], b[..|b| - 1], i);
    }
  }

  lemma XorPointwise(a: seq<bv8>, b: seq<bv8>, r: seq<bv8>)
    requires |a| == |b| == |r|
    requires forall i :: 0 <= i < |a| ==> r[i] == Xor8(a[i], b[i])
    ensures r == XorBytes(a, b)
  {
    forall i | 0 <= i < |a| ensures r[i] == XorBytes(a, b)[i] {
      XorAt(a, b, i);
    }
  }

  lemma Split128(lo: bv64, hi: bv64)
    ensures Lo128(Join128(lo, hi)) == lo && Hi128(Join128(lo, hi)) == hi
  {}

  lemma Split64(lo: bv32, hi: bv32)
    ensures Lo64(Join64(lo, hi)) == lo && Hi64(Join64(lo, hi)) == hi
  {}

  lemma Split32(lo: bv16, hi: bv16)
    ensures Lo32(Join32(lo, hi)) == lo && Hi32(Join32(lo, hi)) == hi
  {}

  lemma Split16(lo: bv8, hi: bv8)
    ensures Lo16(Join16(lo, hi)) == lo && Hi16(Join16(lo, hi)) == hi
  {}

  lemma Halves128(a: bv128, b: bv128)
    ensures Lo128(a ^ b) == Lo128(a) ^ Lo128(b)
    ensures Hi128(a ^ b) == Hi128(a) ^ Hi128(b)
  {}

  lemma Halves64(a: bv64, b: bv64)
    ensures Lo64(a ^ b) == Lo64(a) ^ Lo64(b)
    ensures Hi64(a ^ b) == Hi64(a) ^ Hi64(b)
  {}

  lemma Lanes32(a: bv32, b: bv32)
    ensures Lo16(Lo32(a ^ b)) == Xor8(Lo16(Lo32(a)), Lo16(Lo32(b)))
    ensures Hi16(Lo32(a ^ b)) == Xor8(Hi16(Lo32(a)), Hi16(Lo32(b)))
    ensures Lo16(Hi32(a ^ b)) == Xor8(Lo16(Hi32(a)), Lo16(Hi32(b)))
    ensures Hi16(Hi32(a ^ b)) == Xor8(Hi16(Hi32(a)), Hi16(Hi32(b)))
  {}

  lemma FourLanes(a: seq<bv8>, b: seq<bv8>, c: seq<bv8>)
    requires |a| == |b| == |c| == 4
    requires c[0] == Xor8(a[0], b[0]) && c[1] == Xor8(a[1], b[1])
    requires c[2] == Xor8(a[2], b[2]) && c[3] == Xor8(a[3], b[3])
    ensures c == XorBytes(a, b)
  {
    XorAt(a, b, 0);
    XorAt(a, b, 1);
    XorAt(a, b, 2);
    XorAt(a, b, 3);
  }

  lemma {:induction false} XorConcat(a: seq<bv8>, b: seq<bv8>, c: seq<bv8>, d: seq<bv8>)
    requires |a| == |b| && |c| == |d|
    ensures XorBytes(a, b) + XorBytes(c, d) == XorBytes(a + c, b + d)
  {
    if c == [] {
      assert a + c == a && b + d == b;
    } else {
      var c', d' := c[..|c| - 1], d[..|d| - 1];
      XorConcat(a, b, c', d');
      assert (a + c)[..|a + c| - 1] == a + c' && (b + d)[..|b + d| - 1] == b + d';
    }
  }

  lemma RoundTrip32(b0: bv8, b1: bv8, b2: bv8, b3: bv8)
    ensures ToLe32(FromLe32(b0, b1, b2, b3)) == [b0, b1, b2, b3]
  {
    Split32(Join16(b0, b1), Join16(b2, b3));
    Split16(b0, b1);
    Split16(b2, b3);
  }

  lemma RoundTrip64(b: seq<bv8>)
    requires |b| == 8
    ensures ToLe64(FromLe64(b)) == b
  {
    Split64(FromLe32(b[0], b[1], b[2], b[3]), FromLe32(b[4], b[5], b[6], b[7]));
    RoundTrip32(b[0], b[1], b[2], b[3]);
    RoundTrip32(b[4], b[5], b[6], b[7]);
  }

  lemma RoundTrip128(b: Block)
    ensures ToLe128(FromLe128(b)) == b
  {
    Split128(FromLe64(b[..8]), FromLe64(b[8..]));
    RoundTrip64(b[..8]);
    RoundTrip64(b[8..]);
  }

  lemma ToLe32Xor(x: bv32, y: bv32)
    ensures ToLe32(x ^ y) == XorBytes(ToLe32(x), ToLe32(y))
  {
    Lanes32(x, y);
    FourLanes(ToLe32(x), ToLe32(y), ToLe32(x ^ y));
  }

  lemma ToLe64Xor(x: bv64, y: bv64)
    ensures ToLe64(x ^ y) == XorBytes(ToLe64(x), ToLe64(y))
  {
    Halves64(x, y);
    ToLe32Xor(Lo64(x), Lo64(y));
    ToLe32Xor(Hi64(x), Hi64(y));
    XorConcat(ToLe32(Lo64(x)), ToLe32(Lo64(y)), ToLe32(Hi64(x)), ToLe32(Hi64(y)));
  }

  lemma ToLe128Xor(x: bv128, y: bv128)
    ensures ToLe128(x ^ y) == XorBytes(ToLe128(x), ToLe128(y))
  {
    Halves128(x, y);
    ToLe64Xor(Lo128(x), Lo128(y));
    ToLe64Xor(Hi128(x), Hi128(y));
    XorConcat(ToLe64(Lo128(x)), ToLe64(Lo128(y)), ToLe64(Hi128(x)), ToLe64(Hi128(y)));
  }

  /** One XOR of two 128-bit words is sixteen byte XORs. */
  lemma WideXor(a: Block, b: Block)
    ensures ToLe128(FromLe128(a) ^ FromLe128(b)) == XorBytes(a, b)
  {
    ToLe128Xor(FromLe128(a), FromLe128(b));
    RoundTrip128(a);
    RoundTrip128(b);
  }
}
