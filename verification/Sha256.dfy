/** SHA-256 as in FIPS 180-4: the compression function of section 6.2.2, the padding of section 5.1.1 and the
    hash of a whole message. */
module Sha256Spec {
  import opened Words

  /** The round constants of section 4.2.2. */
  const K256: seq<word> :=
    [0x428a2f98, 0x71374491, 0xb5c0fbcf, 0xe9b5dba5, 0x3956c25b, 0x59f111f1, 0x923f82a4, 0xab1c5ed5]
    + [0xd807aa98, 0x12835b01, 0x243185be, 0x550c7dc3, 0x72be5d74, 0x80deb1fe, 0x9bdc06a7, 0xc19bf174]
    + [0xe49b69c1, 0xefbe4786, 0x0fc19dc6, 0x240ca1cc, 0x2de92c6f, 0x4a7484aa, 0x5cb0a9dc, 0x76f988da]
    + [0x983e5152, 0xa831c66d, 0xb00327c8, 0xbf597fc7, 0xc6e00bf3, 0xd5a79147, 0x06ca6351, 0x14292967]
    + [0x27b70a85, 0x2e1b2138, 0x4d2c6dfc, 0x53380d13, 0x650a7354, 0x766a0abb, 0x81c2c92e, 0x92722c85]
    + [0xa2bfe8a1, 0xa81a664b, 0xc24b8b70, 0xc76c51a3, 0xd192e819, 0xd6990624, 0xf40e3585, 0x106aa070]
    + [0x19a4c116, 0x1e376c08, 0x2748774c, 0x34b0bcb5, 0x391c0cb3, 0x4ed8aa4a, 0x5b9cca4f, 0x682e6ff3]
    + [0x748f82ee, 0x78a5636f, 0x84c87814, 0x8cc70208, 0x90befffa, 0xa4506ceb, 0xbef9a3f7, 0xc67178f2]

  // --- section 4.1.2 ------------------------------------------------------------------------------------

  function Ch(x: word, y: word, z: word): word { (x & y) ^ (!x & z) }
  function Maj(x: word, y: word, z: word): word { (x & y) ^ (x & z) ^ (y & z) }
  // a rotation to the right by n is written as the two shifts by n and by 32 - n
  function BigSigma0(x: word): word { ((x >> 2) | (x << 30)) ^ ((x >> 13) | (x << 19)) ^ ((x >> 22) | (x << 10)) }
  function BigSigma1(x: word): word { ((x >> 6) | (x << 26)) ^ ((x >> 11) | (x << 21)) ^ ((x >> 25) | (x << 7)) }
  function SmallSigma0(x: word): word { ((x >> 7) | (x << 25)) ^ ((x >> 18) | (x << 14)) ^ (x >> 3) }
  function SmallSigma1(x: word): word { ((x >> 17) | (x << 15)) ^ ((x >> 19) | (x << 13)) ^ (x >> 10) }

  // --- section 6.2.2 ------------------------------------------------------------------------------------

  type block = b: seq<byte> | |b| == 64 witness seq(64, _ => 0)

  /** Four bytes as a big-endian word. */
  function Word(b0: byte, b1: byte, b2: byte, b3: byte): word {
    (b0 as word << 24) | (b1 as word << 16) | (b2 as word << 8) | b3 as word
  }

  function Extend(w2: word, w7: word, w15: word, w16: word): word { SmallSigma1(w2) + w7 + SmallSigma0(w15) + w16 }

  /** The t-th word of the message schedule. */
  function Schedule(b: block, t: nat): word
    requires t < 64
  {
    if t < 16 then Word(b[4 * t], b[4 * t + 1], b[4 * t + 2], b[4 * t + 3])
    else
      Extend(Schedule(b, t - 2), Schedule(b, t - 7), Schedule(b, t - 15), Schedule(b, t - 16))
  }

  datatype Registers = Registers(a: word, b: word, c: word, d: word, e: word, f: word, g: word, h: word)

  function Round(r: Registers, c: word, w: word): Registers {
    var t1 := r.h + BigSigma1(r.e) + Ch(r.e, r.f, r.g) + c + w;
    var t2 := BigSigma0(r.a) + Maj(r.a, r.b, r.c);
    Registers(t1 + t2, r.a, r.b, r.c, r.d + t1, r.e, r.f, r.g)
  }

  /** The working variables before round t, with the constants `k`. */
  function Rounds(k: seq<word>, r: Registers, b: block, t: nat): Registers
    requires t <= 64 && |k| == 64
  {
    if t == 0 then r else Round(Rounds(k, r, b, t - 1), k[t - 1], Schedule(b, t - 1))
  }

  function AddRegisters(x: Registers, y: Registers): Registers {
    Registers(x.a + y.a, x.b + y.b, x.c + y.c, x.d + y.d, x.e + y.e, x.f + y.f, x.g + y.g, x.h + y.h)
  }

  function Compress(k: seq<word>, h: Registers, b: block): Registers
    requires |k| == 64
  {
    AddRegisters(h, Rounds(k, h, b, 64))
  }

  const H0 := Registers(0x6a09e667, 0xbb67ae85, 0x3c6ef372, 0xa54ff53a, 0x510e527f, 0x9b05688c, 0x1f83d9ab, 0x5be0cd19)

  // --- the blocks of a message ----------------------------------------------------------------------------

  type Step = (Registers, block) -> Registers

  /** A step function over the `n` blocks of a text, from the hash value `h` on. */
  function Chain(f: Step, h: Registers, m: seq<byte>, n: nat): Registers
    requires |m| == 64 * n
  {
    if n == 0 then h else f(Chain(f, h, m[..64 * n - 64], n - 1), m[64 * n - 64..])
  }

  lemma ChainGrows(f: Step, h: Registers, m: seq<byte>, n: nat, b: block)
    requires |m| == 64 * n
    ensures Chain(f, h, m + b, n + 1) == f(Chain(f, h, m, n), b)
  {
    assert (m + b)[..64 * n] == m && (m + b)[64 * n..] == b;
  }

  /** The same from the front: the hash value behind the first block goes into the second, and so on. */
  lemma {:induction false} ChainFromTheFront(f: Step, h: Registers, m: seq<byte>, n: nat)
    requires |m| == 64 * n && n > 0
    ensures Chain(f, h, m, n) == Chain(f, f(h, m[..64]), m[64..], n - 1)
    decreases n
  {
    if n == 1 {
      assert m[..0] == [] && m[0..] == m == m[..64];
    } else {
      var front := m[..64 * n - 64];
      ChainFromTheFront(f, h, front, n - 1);
      assert front[..64] == m[..64] && front[64..] == m[64..][..64 * (n - 1) - 64];
      assert m[64 * n - 64..] == m[64..][64 * (n - 1) - 64..];
    }
  }

  /** `f` is the compression function with the constants `k`. */
  ghost predicate IsCompression(f: Step, k: seq<word>) {
    |k| == 64 && forall h, b {:trigger Compress(k, h, b)} :: f(h, b) == Compress(k, h, b)
  }

  // --- section 5.1.1 ------------------------------------------------------------------------------------

  /** A 64-bit number as eight bytes, the most significant first. */
  function BigEndian(x: nat, width: nat): (r: seq<byte>)
    ensures |r| == width
  {
    if width == 0 then [] else BigEndian(x / 256, width - 1) + [x % 256]
  }

  function ZeroCount(length: nat): nat { (55 - length) % 64 }

  /** A second block is appended exactly when more than 55 bytes are left over. */
  function PadBlocks(length: nat): nat { length / 64 + (if length % 64 > 55 then 2 else 1) }

  function Pad(m: seq<byte>): seq<byte> {
    m + [0x80] + Zeros(ZeroCount(|m|)) + LengthField(|m|)
  }

  /** The number of bits of a message of `length` bytes, modulo 2^64. */
  function LengthField(length: nat): (r: seq<byte>)
    ensures |r| == 8
  {
    BigEndian(8 * length % COUNTER_LIMIT, 8)
  }

  lemma ZeroCountShape(n: nat, z: nat)
    requires z == ZeroCount(n)
    ensures z < 64
    ensures n + 9 + z == 64 * PadBlocks(n)
  {
    var q, r := n / 64, n % 64;
    assert n == 64 * q + r;
    if r > 55 {
      assert 55 - n == 64 * (-q - 1) + (119 - r);
    } else {
      assert 55 - n == 64 * (-q) + (55 - r);
    }
  }

  /** No smaller number of zeros completes a block. */
  lemma ZeroCountLeast(n: nat, z: nat, k: nat)
    requires z == ZeroCount(n) && k < z
    ensures (n + 9 + k) % 64 != 0
  {
    ZeroCountShape(n, z);
    var m := PadBlocks(n);
    assert n + 9 + k == 64 * (m - 1) + (64 - (z - k));
  }

  /** The padded text is whole blocks. */
  lemma PadShape(m: seq<byte>)
    ensures |Pad(m)| == |m| + 1 + ZeroCount(|m|) + 8 == 64 * PadBlocks(|m|)
  {
    ZeroCountShape(|m|, ZeroCount(|m|));
  }

  lemma {:induction false} BigEndianInjective(x: nat, y: nat, width: nat)
    requires BigEndian(x, width) == BigEndian(y, width)
    requires x < Power256(width) && y < Power256(width)
    ensures x == y
    decreases width
  {
    if width > 0 {
      var xs, ys := BigEndian(x / 256, width - 1), BigEndian(y / 256, width - 1);
      assert BigEndian(x, width)[..width - 1] == xs && BigEndian(y, width)[..width - 1] == ys;
      assert BigEndian(x, width)[width - 1] == x % 256;
      assert BigEndian(y, width)[width - 1] == y % 256;
      BigEndianInjective(x / 256, y / 256, width - 1);
    }
  }

  function Power256(n: nat): nat { if n == 0 then 1 else 256 * Power256(n - 1) }

  /** Different messages (of fewer than 2^64 bits) are padded differently. */
  lemma PadInjective(m: seq<byte>, n: seq<byte>)
    requires 8 * |m| < COUNTER_LIMIT && 8 * |n| < COUNTER_LIMIT
    requires Pad(m) == Pad(n)
    ensures m == n
  {
    PadEnds(m);
    PadEnds(n);
    SmallLength(|m|);
    SmallLength(|n|);
    Power8();
    BigEndianInjective(8 * |m|, 8 * |n|, 8);
  }

  lemma SmallLength(n: nat)
    requires 8 * n < COUNTER_LIMIT
    ensures LengthField(n) == BigEndian(8 * n, 8)
  {
    assert 8 * n % COUNTER_LIMIT == 8 * n;
  }

  lemma PadEnds(m: seq<byte>)
    ensures |Pad(m)| >= |m| + 8 && Pad(m)[..|m|] == m && Pad(m)[|Pad(m)| - 8..] == LengthField(|m|)
  {
    Ends(m, [0x80] + Zeros(ZeroCount(|m|)), LengthField(|m|));
    assert Pad(m) == m + ([0x80] + Zeros(ZeroCount(|m|))) + LengthField(|m|);
  }

  lemma Marked(a: seq<byte>, z: seq<byte>, c: seq<byte>, s: seq<byte>)
    requires s == a + [0x80] + z + c
    ensures |s| == |a| + 1 + |z| + |c| && s[..|a|] == a && s[|a|] == 0x80 && s[|s| - |c|..] == c
    ensures forall i :: |a| < i < |s| - |c| ==> s[i] == z[i - |a| - 1]
  {
  }

  lemma PadLength(n: nat, length: nat)
    requires length == n + 1 + ZeroCount(n) + 8
    ensures length % 64 == 0 && n + 9 <= length <= n + 72
  {
    ZeroCountShape(n, ZeroCount(n));
  }

  /** The padding of section 5.1.1: the end marker, zeros and the number of bits in the last eight bytes. */
  lemma PadLayout(m: seq<byte>)
    ensures |Pad(m)| % 64 == 0 && |m| + 9 <= |Pad(m)| <= |m| + 72
    ensures Pad(m)[..|m|] == m && Pad(m)[|m|] == 0x80
    ensures forall i :: |m| < i < |Pad(m)| - 8 ==> Pad(m)[i] == 0
    ensures Pad(m)[|Pad(m)| - 8..] == BigEndian(8 * |m| % 0x1_0000_0000_0000_0000, 8)
  {
    Marked(m, Zeros(ZeroCount(|m|)), LengthField(|m|), Pad(m));
    PadLength(|m|, |Pad(m)|);
  }

  lemma Ends(a: seq<byte>, b: seq<byte>, c: seq<byte>)
    ensures (a + b + c)[..|a|] == a && (a + b + c)[|a + b + c| - |c|..] == c
  {
  }

  lemma Power8()
    ensures Power256(8) == COUNTER_LIMIT
  {
    assert Power256(2) == 0x1_0000;
    assert Power256(4) == 0x1_0000_0000;
    assert Power256(6) == 0x1_0000_0000_0000;
  }

  // --- the hash -----------------------------------------------------------------------------------------

  /** The byte of a word that starts at bit `n`. */
  function ByteAt(x: word, n: nat): byte {
    var shifted := if n == 24 then x >> 24 else if n == 16 then x >> 16 else if n == 8 then x >> 8 else x;
    (shifted & 0xff) as bv8 as int
  }

  function WordBytes(w: word): (r: seq<byte>)
    ensures |r| == 4
  {
    [ByteAt(w, 24), ByteAt(w, 16), ByteAt(w, 8), ByteAt(w, 0)]
  }

  /** The eight words of a hash value, most significant bytes first. */
  function Parts(h: Registers): (r: seq<seq<byte>>)
    ensures |r| == 8 && forall q :: 0 <= q < 8 ==> |r[q]| == 4
  {
    [WordBytes(h.a), WordBytes(h.b), WordBytes(h.c), WordBytes(h.d),
     WordBytes(h.e), WordBytes(h.f), WordBytes(h.g), WordBytes(h.h)]
  }

  /** Pieces of four bytes, one after the other. */
  function Concat(parts: seq<seq<byte>>): (r: seq<byte>)
    requires forall q :: 0 <= q < |parts| ==> |parts[q]| == 4
    ensures |r| == 4 * |parts|
  {
    if parts == [] then [] else parts[0] + Concat(parts[1..])
  }

  lemma {:induction false} ConcatIndex(parts: seq<seq<byte>>, p: nat, i: nat)
    requires forall q :: 0 <= q < |parts| ==> |parts[q]| == 4
    requires p < |parts| && i < 4
    ensures Concat(parts)[4 * p + i] == parts[p][i]
    decreases p
  {
    if p > 0 {
      ConcatIndex(parts[1..], p - 1, i);
    }
  }

  function Digest(h: Registers): (r: seq<byte>)
    ensures |r| == 32
  {
    Concat(Parts(h))
  }

  /** The hash value behind the padded message, for a step function. */
  function FinalHash(f: Step, m: seq<byte>): Registers {
    PadShape(m);
    Chain(f, H0, Pad(m), PadBlocks(|m|))
  }

  function HashWith(f: Step, m: seq<byte>): (r: seq<byte>)
    ensures |r| == 32
  {
    Digest(FinalHash(f, m))
  }

  /** SHA-256, with the round constants `k`. */
  function Sha256(k: seq<word>, m: seq<byte>): (r: seq<byte>)
    requires |k| == 64
    ensures |r| == 32
  {
    HashWith(StepOf(k), m)
  }

  function StepOf(k: seq<word>): Step
    requires |k| == 64
  {
    (h: Registers, b: block) => Compress(k, h, b)
  }

  lemma {:induction false} ChainAgrees(f: Step, g: Step, h: Registers, m: seq<byte>, n: nat)
    requires |m| == 64 * n && forall h', b :: f(h', b) == g(h', b)
    ensures Chain(f, h, m, n) == Chain(g, h, m, n)
    decreases n
  {
    if n > 0 {
      ChainAgrees(f, g, h, m[..64 * n - 64], n - 1);
    }
  }

  lemma CompressionHashes(f: Step, k: seq<word>, m: seq<byte>)
    requires IsCompression(f, k)
    ensures HashWith(f, m) == Sha256(k, m)
  {
    var g := StepOf(k);
    forall h, b ensures f(h, b) == g(h, b) {
      assert f(h, b) == Compress(k, h, b);
    }
    PadShape(m);
    ChainAgrees(f, g, H0, Pad(m), PadBlocks(|m|));
  }
}
