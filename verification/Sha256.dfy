/** The hash of FIPS 180-4, as the standard defines it. */
module Sha256Spec {
  import opened Bytes

  /** 32-bit words. */
  type word = bv32

  function Xor(x: word, y: word): word { x ^ y }
  function And(x: word, y: word): word { x & y }
  function Not(x: word): word { !x }
  function ShR(x: word, n: bv6): word
    requires n < 32
  {
    x >> n
  }

  function RotR(x: word, n: bv6): word
    requires 0 < n < 32
  {
    (x >> n) | (x << (32 - n))
  }

  /** Section 4.1.2. */
  function Ch(x: word, y: word, z: word): word { Xor(And(x, y), And(Not(x), z)) }
  function Maj(x: word, y: word, z: word): word { Xor(Xor(And(x, y), And(x, z)), And(y, z)) }
  function Sum0(x: word): word { Xor(Xor(RotR(x, 2), RotR(x, 13)), RotR(x, 22)) }
  function Sum1(x: word): word { Xor(Xor(RotR(x, 6), RotR(x, 11)), RotR(x, 25)) }
  function Mix0(x: word): word { Xor(Xor(RotR(x, 7), RotR(x, 18)), ShR(x, 3)) }
  function Mix1(x: word): word { Xor(Xor(RotR(x, 17), RotR(x, 19)), ShR(x, 10)) }

  /** Eight to a row. */
  const K_TABLE: seq<seq<word>> := [
    [0x428a2f98, 0x71374491, 0xb5c0fbcf, 0xe9b5dba5, 0x3956c25b, 0x59f111f1, 0x923f82a4, 0xab1c5ed5],
    [0xd807aa98, 0x12835b01, 0x243185be, 0x550c7dc3, 0x72be5d74, 0x80deb1fe, 0x9bdc06a7, 0xc19bf174],
    [0xe49b69c1, 0xefbe4786, 0x0fc19dc6, 0x240ca1cc, 0x2de92c6f, 0x4a7484aa, 0x5cb0a9dc, 0x76f988da],
    [0x983e5152, 0xa831c66d, 0xb00327c8, 0xbf597fc7, 0xc6e00bf3, 0xd5a79147, 0x06ca6351, 0x14292967],
    [0x27b70a85, 0x2e1b2138, 0x4d2c6dfc, 0x53380d13, 0x650a7354, 0x766a0abb, 0x81c2c92e, 0x92722c85],
    [0xa2bfe8a1, 0xa81a664b, 0xc24b8b70, 0xc76c51a3, 0xd192e819, 0xd6990624, 0xf40e3585, 0x106aa070],
    [0x19a4c116, 0x1e376c08, 0x2748774c, 0x34b0bcb5, 0x391c0cb3, 0x4ed8aa4a, 0x5b9cca4f, 0x682e6ff3],
    [0x748f82ee, 0x78a5636f, 0x84c87814, 0x8cc70208, 0x90befffa, 0xa4506ceb, 0xbef9a3f7, 0xc67178f2]]

  /** Section 4.2.2. */
  function K(t: nat): word
    requires t < 64
  {
    K_TABLE[t / 8][t % 8]
  }

  /** Section 5.3.3. */
  const H0: Regs := Regs(0x6a09e667, 0xbb67ae85, 0x3c6ef372, 0xa54ff53a, 0x510e527f, 0x9b05688c, 0x1f83d9ab, 0x5be0cd19)

  datatype Regs = Regs(a: word, b: word, c: word, d: word, e: word, f: word, g: word, h: word)

  type block = s: seq<byte> | |s| == 64 witness seq(64, _ => 0)

  /** The i-th big-endian word of a block. */
  function WordAt(m: block, i: nat): word
    requires i < 16
  {
    FourBytes(m[4 * i..4 * i + 4])
  }

  function FourBytes(s: seq<byte>): word
    requires |s| == 4
  {
    assert Pow256(4) == 0x1_0000_0000;
    FromBE(s) as word
  }

  function Mix(w2: word, w7: word, w15: word, w16: word): word {
    Add(Add(Add(Mix1(w2), w7), Mix0(w15)), w16)
  }

  /** Section 6.2.2, step 1: the message schedule. */
  function Schedule(m: block, t: nat): word {
    if t < 16 then WordAt(m, t)
    else Mix(Schedule(m, t - 2), Schedule(m, t - 7), Schedule(m, t - 15), Schedule(m, t - 16))
  }

  /** Steps 2 and 3: the first t rounds. */
  function Rounds(v: Regs, m: block, t: nat): Regs
    requires t <= 64
  {
    if t == 0 then v else Round(Rounds(v, m, t - 1), K(t - 1), Schedule(m, t - 1))
  }

  function Round(v: Regs, k: word, w: word): Regs {
    var t1 := T1(v.e, v.f, v.g, v.h, k, w);
    Regs(Add(t1, T2(v.a, v.b, v.c)), v.a, v.b, v.c, Add(v.d, t1), v.e, v.f, v.g)
  }

  function FiveSum(a: word, b: word, c: word, d: word, e: word): word { a + b + c + d + e }

  /** Addition modulo 2^32. */
  function Add(x: word, y: word): word { x + y }

  function T1(e: word, f: word, g: word, h: word, k: word, w: word): word {
    FiveSum(h, Sum1(e), Ch(e, f, g), k, w)
  }

  function T2(a: word, b: word, c: word): word { Add(Sum0(a), Maj(a, b, c)) }

  /** Step 4. */
  function Compress(v: Regs, m: block): Regs { Sums(v, Rounds(v, m, 64)) }

  function Sums(v: Regs, r: Regs): Regs {
    Regs(Add(v.a, r.a), Add(v.b, r.b), Add(v.c, r.c), Add(v.d, r.d), Add(v.e, r.e), Add(v.f, r.f), Add(v.g, r.g),
         Add(v.h, r.h))
  }

  /** The compression function folded over the first n blocks of s. */
  function Fold(v: Regs, s: seq<byte>, n: nat): Regs
    requires 64 * n <= |s|
    decreases n
  {
    if n == 0 then v else Compress(Fold(v, s, n - 1), s[64 * (n - 1)..64 * n])
  }

  /** Section 5.1.1, in bytes: z is the smallest number of zero bytes that makes the padded message
      fill whole blocks. */
  predicate PaddingZeros(length: nat, z: nat) {
    z < 64 && (length + 1 + z) % 64 == 56
  }

  function Zeros(length: nat): (z: nat)
    ensures PaddingZeros(length, z)
  {
    (119 - length % 64) % 64
  }

  lemma FillsBlocks(length: nat, z: nat)
    requires PaddingZeros(length, z)
    ensures (length + 1 + z + 8) % 64 == 0
  {
  }

  lemma ZerosUnique(length: nat, z: nat)
    requires PaddingZeros(length, z)
    ensures z == Zeros(length)
  {
  }

  function Padded(msg: seq<byte>): (s: seq<byte>)
    ensures |s| == |msg| + 1 + Zeros(|msg|) + 8 && |s| % 64 == 0
  {
    FillsBlocks(|msg|, Zeros(|msg|));
    msg + [0x80] + ZeroBytes(Zeros(|msg|)) + ToBE(8 * |msg|, 8)
  }

  function Stored(w: word): (s: seq<byte>)
    ensures |s| == 4
  {
    ToBE(w as nat, 4)
  }

  function Words(v: Regs): (words: seq<word>)
    ensures |words| == 8
  {
    [v.a, v.b, v.c, v.d, v.e, v.f, v.g, v.h]
  }

  function StoredAll(words: seq<word>): (s: seq<byte>)
    ensures |s| == 4 * |words|
  {
    if words == [] then [] else StoredAll(words[..|words| - 1]) + Stored(words[|words| - 1])
  }

  function Output(v: Regs): (s: seq<byte>)
    ensures |s| == 32
  {
    StoredAll(Words(v))
  }

  /** Section 6.2, for messages whose length in bits fits 64 bits. */
  function Digest(msg: seq<byte>): (d: seq<byte>)
    ensures |d| == 32
  {
    var s := Padded(msg);
    Output(Fold(H0, s, |s| / 64))
  }
}

/** The buffered hasher of libs/base/sha256.hpp, proved against Sha256Spec. */
module Sha256 {
  import opened Bytes
  import opened Sha256Spec

  class Hasher {
    const state: array<word>
    var count: u64
    const buf: array<byte>
    var bufLen: nat
    /** Whether the host is little-endian. */
    const little: bool
    /** Everything ingested so far, and how many whole blocks of it have been compressed. */
    ghost var message: seq<byte>
    ghost var blocks: nat

    ghost predicate Shape() {
      state.Length == 8 && buf.Length == 64
    }

    ghost function Value(): Regs
      requires Shape()
      reads state
    {
      Regs(state[0], state[1], state[2], state[3], state[4], state[5], state[6], state[7])
    }

    /** Whole blocks of the message are in the state, the rest is in the buffer. */
    ghost predicate Valid()
      reads this, state, buf
    {
      Buffered() && count == |message| % TWO_64
    }

    constructor (little: bool)
      ensures Valid() && message == [] && fresh(state) && fresh(buf) && this.little == little
    {
      state := new word[8] [0x6a09e667, 0xbb67ae85, 0x3c6ef372, 0xa54ff53a, 0x510e527f, 0x9b05688c, 0x1f83d9ab,
                            0x5be0cd19];
      count := 0;
      buf := new byte[64](_ => 0);
      bufLen := 0;
      this.little := little;
      message := [];
      blocks := 0;
    }

    /** A 32-bit load in network order. */
    method LoadWord(s: seq<byte>) returns (w: word)
      requires |s| == 4
      ensures w == FourBytes(s)
    {
      LoadedBigEndian(s, little);
      assert Pow256(4) == 0x1_0000_0000;
      w := ToNetwork(NativeLoad(s, little), 4, little) as word;
    }

    method ExpandBlock() returns (w: array<word>)
      requires Shape()
      ensures fresh(w) && w.Length == 64 && forall t :: 0 <= t < 64 ==> w[t] == Schedule(buf[..], t)
    {
      hide Mix, Mix0, Mix1, Add, FourBytes;
      ghost var m := buf[..];
      w := new word[64](_ => 0);
      for i := 0 to 16
        invariant forall t :: 0 <= t < i ==> w[t] == Schedule(m, t)
      {
        var word := LoadWord(buf[4 * i..4 * i + 4]);
        assert buf[4 * i..4 * i + 4] == m[4 * i..4 * i + 4];
        w[i] := word;
      }
      for i := 16 to 64
        invariant forall t :: 0 <= t < i ==> w[t] == Schedule(m, t)
      {
        var next := Add(Add(Add(Mix1(w[i - 2]), w[i - 7]), Mix0(w[i - 15])), w[i - 16]);
        MixIs(w[i - 2], w[i - 7], w[i - 15], w[i - 16]);
        w[i] := next;
      }
    }

    /** The source adds the terms of the first sum in another order than the standard. */
    method FirstSum(e: word, f: word, g: word, h: word, k: word, w: word) returns (t1: word)
      ensures t1 == T1(e, f, g, h, k, w)
    {
      hide Sum1, Ch, FiveSum;
      var s, c := Sum1(e), Ch(e, f, g);
      t1 := s + c + h + k + w;
      SameSum(h, s, c, k, w);
    }

    /** One round on the eight working variables. */
    method Step(v: Regs, k: word, w: word) returns (r: Regs)
      ensures r == Round(v, k, w)
    {
      hide T1, T2, Add;
      var Regs(a, b, c, d, e, f, g, h) := v;
      var t1 := FirstSum(e, f, g, h, k, w);
      var t2 := T2(a, b, c);
      h := g;
      g := f;
      f := e;
      e := Add(d, t1);
      d := c;
      c := b;
      b := a;
      a := Add(t1, t2);
      r := Regs(a, b, c, d, e, f, g, h);
    }

    method ProcessBlock()
      requires Shape()
      modifies state
      ensures Value() == Compress(old(Value()), buf[..])
    {
      hide Round, Schedule, K, Sums;
      ghost var m, v := buf[..], Value();
      var w := ExpandBlock();
      var r := Regs(state[0], state[1], state[2], state[3], state[4], state[5], state[6], state[7]);
      for i := 0 to 64
        invariant r == Rounds(v, m, i) && Value() == v
        invariant forall t :: 0 <= t < 64 ==> w[t] == Schedule(m, t)
      {
        r := Step(r, K(i), w[i]);
      }
      AddToState(r);
    }

    method AddToState(r: Regs)
      requires Shape()
      modifies state
      ensures Value() == Sums(old(Value()), r)
    {
      hide Add;
      state[0] := Add(state[0], r.a);
      state[1] := Add(state[1], r.b);
      state[2] := Add(state[2], r.c);
      state[3] := Add(state[3], r.d);
      state[4] := Add(state[4], r.e);
      state[5] := Add(state[5], r.f);
      state[6] := Add(state[6], r.g);
      state[7] := Add(state[7], r.h);
    }

    method Ingest(input: seq<byte>)
      requires Valid()
      modifies this`count, this`bufLen, this`message, this`blocks, state, buf
      ensures Valid() && message == old(message) + input
    {
      hide Fold, Compress, H0;
      CountAdds(|message|, |input|);
      count := (count + |input|) % TWO_64;
      ghost var whole := message + input;
      var data := input;
      while data != []
        invariant Buffered() && message + data == whole && count == |whole| % TWO_64
        decreases |data|
      {
        var space := 64 - bufLen;
        var take := if |data| < space then |data| else space;
        assert message + data[..take] + data[take..] == message + data;
        Take(data[..take]);
        data := data[take..];
      }
      assert message == whole;
    }

    ghost predicate Buffered()
      reads this, state, buf
    {
      Holds(message, bufLen) && bufLen < 64
    }

    /** The state has taken in the whole blocks of m, and the first n bytes of the buffer are the rest. */
    ghost predicate Holds(m: seq<byte>, n: nat)
      reads this, state, buf
    {
      && Shape() && n <= 64 && |m| == 64 * blocks + n
      && Value() == Fold(H0, m, blocks)
      && buf[..n] == m[64 * blocks..]
    }

    /** Adds no more than fits, and compresses the block when it is full. */
    method Take(data: seq<byte>)
      requires Buffered() && bufLen + |data| <= 64
      modifies this`bufLen, this`message, this`blocks, state, buf
      ensures Buffered() && message == old(message) + data
    {
      hide Fold, Compress, H0;
      CopyIn(bufLen, data, message);
      message := message + data;
      bufLen := bufLen + |data|;
      if bufLen == 64 {
        Flush(message);
        bufLen := 0;
      }
    }

    /** memcpy or memset to the part of the buffer after its first n bytes. */
    method CopyIn(n: nat, data: seq<byte>, ghost m: seq<byte>)
      requires Holds(m, n) && n + |data| <= 64
      modifies buf
      ensures Holds(m + data, n + |data|)
    {
      hide Fold, Compress, H0;
      for i := 0 to |data|
        invariant buf[..n + i] == old(buf[..n]) + data[..i]
      {
        buf[n + i] := data[i];
      }
      FoldPrefix(H0, m, data, blocks);
      assert data[..|data|] == data;
      assert (m + data)[64 * blocks..] == m[64 * blocks..] + data;
    }

    /** Compresses a full buffer. */
    method Flush(ghost m: seq<byte>)
      requires Holds(m, 64)
      modifies this`blocks, state
      ensures Holds(m, 0) && blocks == old(blocks) + 1
    {
      hide Fold, Compress, H0;
      assert buf[..] == buf[..64] == m[64 * blocks..64 * (blocks + 1)];
      FoldStep(H0, m, blocks);
      ProcessBlock();
      blocks := blocks + 1;
      assert m[64 * blocks..] == [];
    }

    /** Zeros to the end of the block. */
    method CloseBlock(ghost m: seq<byte>)
      requires Holds(m, bufLen) && bufLen < 65
      modifies this`bufLen, this`blocks, state, buf
      ensures Holds(m + ZeroBytes(64 - old(bufLen)), 0) && bufLen == 0
    {
      hide Fold, Compress, H0, ZeroBytes;
      CopyIn(bufLen, ZeroBytes(64 - bufLen), m);
      Flush(m + ZeroBytes(64 - bufLen));
      bufLen := 0;
    }

    /** 0x80 and zeros up to the last 8 bytes of a block: one more block when fewer than 9 bytes are free. */
    method PadZeros()
      requires Valid()
      modifies this`bufLen, this`blocks, state, buf
      ensures Holds(message + [0x80] + ZeroBytes(Zeros(|message|)), 56)
    {
      hide Fold, Compress, H0, ZeroBytes;
      ghost var m, z := message + [0x80], 0;
      ZerosJoined(m, 0, 0);
      CopyIn(bufLen, [0x80], message);
      bufLen := bufLen + 1;
      if bufLen > 56 {
        z := 64 - bufLen;
        CloseBlock(m);
      }
      FillZeros(m, z);
    }

    method FillZeros(ghost m: seq<byte>, ghost z: nat)
      requires Holds(m + ZeroBytes(z), bufLen) && bufLen <= 56 && m == message + [0x80] && z + 56 - bufLen < 64
      modifies buf
      ensures Holds(message + [0x80] + ZeroBytes(Zeros(|message|)), 56)
    {
      hide Fold, Compress, H0, ZeroBytes;
      CopyIn(bufLen, ZeroBytes(56 - bufLen), m + ZeroBytes(z));
      ZerosJoined(m, z, 56 - bufLen);
      Ends(|message|, z + 56 - bufLen, blocks);
      ZerosUnique(|message|, z + 56 - bufLen);
    }

    /** And the number of bits. */
    method Pad()
      requires Valid()
      modifies this`bufLen, this`blocks, state, buf
      ensures Holds(Padded(message), 0)
    {
      hide Fold, Compress, H0;
      PadZeros();
      ghost var m := message + [0x80] + ZeroBytes(Zeros(|message|));
      var bits := count * 8 % TWO_64;
      StoredBigEndian(bits, 8, little);
      CopyIn(56, NativeStore(ToNetwork(bits, 8, little), 8, little), m);
      LowBits(|message|);
      assert m + NativeStore(ToNetwork(bits, 8, little), 8, little) == Padded(message);
      Flush(Padded(message));
    }

    /** A 32-bit store in network order. */
    method StoreWord(w: word) returns (bytes: seq<byte>)
      ensures bytes == Stored(w)
    {
      var v := w as nat;
      StoredBigEndian(v, 4, little);
      bytes := NativeStore(ToNetwork(v, 4, little), 4, little);
    }

    /** The eight words of the state in network order. */
    method Emit() returns (out: seq<byte>)
      requires Shape()
      ensures out == Output(Value())
    {
      hide Stored, StoredAll;
      ghost var words := Words(Value());
      out := [];
      StoredNone();
      for i := 0 to 8
        invariant out == StoredAll(words[..i])
      {
        StoredMore(words, i);
        var bytes := StoreWord(state[i]);
        out := out + bytes;
      }
      assert words[..8] == words;
    }

    /** Consumes the hasher: what comes out is the digest of all that went in. */
    method Finalize() returns (out: seq<byte>)
      requires Valid()
      modifies this`bufLen, this`blocks, state, buf
      ensures out == Digest(message)
    {
      hide Fold, Compress, H0;
      Pad();
      out := Emit();
      assert blocks == |Padded(message)| / 64;
    }

    /** Cut into pieces in any way, the message has one digest. */
    static method HashPieces(pieces: seq<seq<byte>>, little: bool) returns (out: seq<byte>)
      ensures out == Digest(Joined(pieces))
    {
      hide Digest, Joined, Fold, Compress, H0;
      NothingJoined();
      var hasher := new Hasher(little);
      assert pieces[..0] == [];
      for i := 0 to |pieces|
        invariant hasher.Valid() && fresh(hasher) && fresh(hasher.state) && fresh(hasher.buf)
        invariant hasher.message == Joined(pieces[..i])
      {
        JoinedMore(pieces, i);
        hasher.Ingest(pieces[i]);
      }
      assert pieces[..|pieces|] == pieces;
      out := hasher.Finalize();
    }
  }

  lemma NothingJoined()
    ensures Joined([]) == []
  {
  }

  lemma JoinedMore(pieces: seq<seq<byte>>, i: nat)
    requires i < |pieces|
    ensures Joined(pieces[..i + 1]) == Joined(pieces[..i]) + pieces[i]
  {
    assert pieces[..i + 1][..i] == pieces[..i];
  }

  function Joined(pieces: seq<seq<byte>>): seq<byte> {
    if pieces == [] then [] else Joined(pieces[..|pieces| - 1]) + pieces[|pieces| - 1]
  }

  lemma Ends(length: nat, z: nat, blocks: nat)
    requires length + 1 + z == 64 * blocks + 56 && z < 64
    ensures PaddingZeros(length, z)
  {
  }

  /** The 64-bit count, wrapped or not, gives the low 64 bits of the length in bits. */
  lemma LowBits(length: nat)
    ensures ToBE(length % TWO_64 * 8 % TWO_64, 8) == ToBE(8 * length, 8)
  {
    assert Pow256(8) == TWO_64;
    EightTimes(length, TWO_64);
    LowBytes(8 * length, 8);
  }

  lemma EightTimes(v: nat, p: nat)
    requires p > 0
    ensures v % p * 8 % p == 8 * v % p
  {
    var q, r := v / p, v % p;
    assert v == p * q + r;
    Scaled(p, q);
    ModAdd(p, 8 * q, 8 * r);
  }

  lemma Scaled(p: nat, q: nat)
    ensures p * (8 * q) == 8 * (p * q)
  {
  }

  lemma ModAdd(p: nat, k: nat, u: nat)
    requires p > 0
    ensures (p * k + u) % p == u % p
  {
    var d := u / p;
    Distributes(p, k, d);
    assert u == p * d + u % p;
    ModOf(p, k + d, u % p);
  }

  lemma Distributes(p: nat, k: nat, d: nat)
    ensures p * (k + d) == p * k + p * d
  {
  }

  lemma {:induction false} LowBytes(v: nat, n: nat)
    ensures ToBE(v % Pow256(n), n) == ToBE(v, n)
  {
    if n > 0 {
      DivMod(v, Pow256(n - 1));
      LowBytes(v / 256, n - 1);
    }
  }

  lemma DivMod(v: nat, p: nat)
    requires p >= 1
    ensures v % (256 * p) / 256 == v / 256 % p && v % (256 * p) % 256 == v % 256
  {
    var q, r := v / (256 * p), v % (256 * p);
    assert v == 256 * (p * q) + r;
    assert v / 256 == p * q + r / 256;
    assert r / 256 < p;
    ModOf(p, q, r / 256);
  }

  lemma ModOf(p: nat, q: nat, s: nat)
    requires s < p
    ensures (p * q + s) % p == s
  {
    var v := p * q + s;
    Unique(p, v / p, v % p, q, s);
  }

  lemma Unique(p: nat, a: int, m: nat, b: int, s: nat)
    requires p * a + m == p * b + s && m < p && s < p
    ensures m == s
  {
    if a > b {
      AtLeast(p, b, a);
    } else if a < b {
      AtLeast(p, a, b);
    }
  }

  lemma AtLeast(p: nat, a: int, b: int)
    requires a < b
    ensures p * b >= p * a + p
    decreases b - a
  {
    if b == a + 1 {
      assert p * (a + 1) == p * a + p;
    } else {
      AtLeast(p, a, b - 1);
      assert p * b == p * (b - 1) + p;
    }
  }

  lemma StoredNone()
    ensures StoredAll([]) == []
  {
  }

  lemma StoredMore(words: seq<word>, i: nat)
    requires i < |words|
    ensures StoredAll(words[..i + 1]) == StoredAll(words[..i]) + Stored(words[i])
  {
    hide Stored;
    assert words[..i + 1][..i] == words[..i];
  }

  lemma ZerosJoined(s: seq<byte>, m: nat, n: nat)
    ensures s + ZeroBytes(m) + ZeroBytes(n) == s + ZeroBytes(m + n) && s + ZeroBytes(0) == s
  {
  }

  lemma CountAdds(m: nat, n: nat)
    ensures (m % TWO_64 + n) % TWO_64 == (m + n) % TWO_64
  {
  }

  /** What comes after the first n blocks does not matter to them. */
  lemma {:induction false} FoldPrefix(v: Regs, s: seq<byte>, more: seq<byte>, n: nat)
    requires 64 * n <= |s|
    ensures Fold(v, s + more, n) == Fold(v, s, n)
  {
    hide Compress;
    if n > 0 {
      FoldPrefix(v, s, more, n - 1);
      assert (s + more)[64 * (n - 1)..64 * n] == s[64 * (n - 1)..64 * n];
    }
  }

  lemma FoldStep(v: Regs, s: seq<byte>, n: nat)
    requires 64 * (n + 1) <= |s|
    ensures Fold(v, s, n + 1) == Compress(Fold(v, s, n), s[64 * n..64 * (n + 1)])
  {
  }

  lemma MixIs(w2: word, w7: word, w15: word, w16: word)
    ensures Add(Add(Add(Mix1(w2), w7), Mix0(w15)), w16) == Mix(w2, w7, w15, w16)
  {
  }

  lemma SameSum(h: word, s: word, c: word, k: word, w: word)
    ensures s + c + h + k + w == FiveSum(h, s, c, k, w)
  {
  }
}
