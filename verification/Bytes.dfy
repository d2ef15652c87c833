/** Bytes, unsigned 64-bit arithmetic, and how integers are laid out in memory and in files. */
module Bytes {
  import opened Sequences

  type byte = i: int | 0 <= i < 256

  const TWO_32: nat := 0x1_0000_0000
  const TWO_64: int := 0x1_0000_0000_0000_0000
  const TWO_63: int := 0x8000_0000_0000_0000

  type u64 = i: int | 0 <= i < TWO_64
  type i64 = i: int | -TWO_63 <= i < TWO_63

  // ----- the machine's arithmetic: two's complement throughout -----

  function AsU64(x: i64): u64 { if x < 0 then x + TWO_64 else x }

  function AsI64(x: u64): i64 { if x < TWO_63 then x else x - TWO_64 }

  function Negated(x: i64): i64 { if x == -TWO_63 then x else -(x as int) }

  function AddI64(x: i64, y: i64): i64 {
    var s: int := x + y;
    if s < -TWO_63 then s + TWO_64 else if s >= TWO_63 then s - TWO_64 else s
  }

  function AddU64(x: u64, y: u64): u64 {
    var s: int := x + y;
    if s < TWO_64 then s else s - TWO_64
  }

  function SubU64(x: u64, y: u64): u64 {
    var s: int := x - y;
    if s < 0 then s + TWO_64 else s
  }

  // ----- bytes of a number -----

  function Pow256(n: nat): (p: nat)
    ensures p >= 1
  {
    if n == 0 then 1 else 256 * Pow256(n - 1)
  }

  /** The n least significant bytes of v, most significant first. */
  function ToBE(v: nat, n: nat): (s: seq<byte>)
    ensures |s| == n
  {
    if n == 0 then [] else ToBE(v / 256, n - 1) + [v % 256]
  }

  function FromBE(s: seq<byte>): (v: nat)
    ensures v < Pow256(|s|)
  {
    if s == [] then 0 else FromBE(s[..|s| - 1]) * 256 + s[|s| - 1]
  }

  lemma {:induction false} EncodeDecode(v: nat, n: nat)
    requires v < Pow256(n)
    ensures FromBE(ToBE(v, n)) == v
  {
    if n > 0 {
      EncodeDecode(v / 256, n - 1);
      assert ToBE(v, n)[..n - 1] == ToBE(v / 256, n - 1);
    }
  }

  lemma {:induction false} DecodeEncode(s: seq<byte>)
    ensures ToBE(FromBE(s), |s|) == s
  {
    if s != [] {
      var before, last := s[..|s| - 1], s[|s| - 1];
      DecodeEncode(before);
      LastByte(FromBE(before), last);
      assert s == before + [last];
    }
  }

  lemma LastByte(v: nat, b: byte)
    ensures (v * 256 + b) / 256 == v && (v * 256 + b) % 256 == b
  {
  }

  function ZeroBytes(n: nat): (s: seq<byte>)
    ensures |s| == n
  {
    seq(n, _ => 0)
  }

  // ----- the host's own layout -----

  function NativeStore(v: nat, n: nat, little: bool): (s: seq<byte>)
    ensures |s| == n
  {
    if little then Reversed(ToBE(v, n)) else ToBE(v, n)
  }

  function NativeLoad(s: seq<byte>, little: bool): nat {
    FromBE(if little then Reversed(s) else s)
  }

  /** The number whose bytes are those of v in the opposite order. */
  function ByteSwap(v: nat, n: nat): nat {
    FromBE(Reversed(ToBE(v, n)))
  }

  /** The number a host passes through to get network order: swapped on a little-endian host only. */
  function ToNetwork(v: nat, n: nat, little: bool): nat {
    if little then ByteSwap(v, n) else v
  }

  /** Whatever the host, what it stores after the conversion is big-endian. */
  lemma StoredBigEndian(v: nat, n: nat, little: bool)
    ensures NativeStore(ToNetwork(v, n, little), n, little) == ToBE(v, n)
  {
    if little {
      DecodeEncode(Reversed(ToBE(v, n)));
      assert Reversed(Reversed(ToBE(v, n))) == ToBE(v, n);
    }
  }

  /** And what it loads and converts back is the big-endian number. */
  lemma LoadedBigEndian(s: seq<byte>, little: bool)
    ensures ToNetwork(NativeLoad(s, little), |s|, little) == FromBE(s)
  {
    if little {
      DecodeEncode(Reversed(s));
      assert Reversed(Reversed(s)) == s;
    }
  }
}
