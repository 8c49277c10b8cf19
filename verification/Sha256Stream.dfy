/** The streaming implementation of sources/utility/sha256.c: any split of a message into calls gives its hash. */
module Sha256Stream {
  import opened Words
  import opened Sha256Spec

  class Context {
    /** The round constants, and the compression function with them. */
    const k: seq<word>
    ghost const f: Step

    var buf: array<byte>
    var hash: Registers
    var bits0: counter
    var bits1: counter
    var len: nat

    /** Everything given to sha256_hash so far, and how many blocks of it have been compressed. */
    ghost var absorbed: seq<byte>
    ghost var blocks: nat

    ghost function Bits(): int
      reads this
    {
      bits1 * WORD_LIMIT + bits0
    }

    ghost predicate Valid()
      reads this, buf
    {
      && IsCompression(f, k)
      && buf.Length == 64 && len < 64
      && |absorbed| == 64 * blocks + len
      && buf[..len] == absorbed[64 * blocks..]
      && hash == Chain(f, H0, absorbed[..64 * blocks], blocks)
      && Bits() == 512 * blocks % COUNTER_LIMIT
    }

    /** sha256_init */
    constructor (k: seq<word>)
      requires |k| == 64
      ensures Valid() && absorbed == [] && fresh(buf) && this.k == k
    {
      this.k := k;
      f := StepOf(k);
      buf := new byte[64];
      hash := H0;
      bits0, bits1 := 0, 0;
      len := 0;
      absorbed, blocks := [], 0;
    }

    /** _addbits: a 64-bit addition on two words, for a counter that stands for `total`. */
    method AddBits(n: counter, ghost total: nat)
      requires Bits() == total % COUNTER_LIMIT
      modifies `bits0, `bits1
      ensures Bits() == (total + n) % COUNTER_LIMIT
    {
      AddMod(total, n);
      if bits0 > 0xffffffff - n {
        bits1 := (bits1 + 1) % WORD_LIMIT;
      }
      bits0 := (bits0 + n) % WORD_LIMIT;
    }

    /** _hash: schedule and rounds in one loop. */
    method HashBlock()
      requires buf.Length == 64 && IsCompression(f, k)
      modifies `hash
      ensures hash == f(old(hash), buf[..])
    {
      var r := CompressBuffer();
      assert r == Compress(k, hash, buf[..]);
      hash := r;
    }

    /** The working variables are kept as one value, which a round replaces. */
    method CompressBuffer() returns (sum: Registers)
      requires buf.Length == 64 && |k| == 64
      ensures sum == Compress(k, hash, buf[..])
    {
      var r := hash;
      var w := new word[64];
      ghost var blk: block := buf[..];
      for i := 0 to 64
        invariant blk == buf[..]
        invariant forall t :: 0 <= t < i ==> IsWord(blk, t, w[t])
        invariant Working(k, hash, blk, i, r)
      {
        var x := MessageWord(w, i);
        w[i] := x;
        r := OneRound(r, i, x, hash, blk);
      }
      sum := SumOf(hash, r, blk);
    }

    method OneRound(r: Registers, i: nat, x: word, ghost h: Registers, ghost blk: block) returns (next: Registers)
      requires i < 64 && |k| == 64 && Working(k, h, blk, i, r) && IsWord(blk, i, x)
      ensures Working(k, h, blk, i + 1, next)
    {
      next := Round(r, k[i], x);
      assert r == Rounds(k, h, blk, i) && x == Schedule(blk, i);
    }

    method SumOf(h: Registers, r: Registers, ghost blk: block) returns (sum: Registers)
      requires |k| == 64 && Working(k, h, blk, 64, r)
      ensures sum == Compress(k, h, blk)
    {
      sum := AddRegisters(h, r);
      assert r == Rounds(k, h, blk, 64);
    }

    method MessageWord(w: array<word>, i: nat) returns (x: word)
      requires buf.Length == w.Length == 64 && i < 64
      requires forall t :: 0 <= t < i ==> IsWord(buf[..], t, w[t])
      ensures IsWord(buf[..], i, x)
    {
      ghost var blk: block := buf[..];
      if i < 16 {
        x := Word(buf[4 * i], buf[4 * i + 1], buf[4 * i + 2], buf[4 * i + 3]);
      } else {
        x := Extend(w[i - 2], w[i - 7], w[i - 15], w[i - 16]);
        assert w[i - 2] == Schedule(blk, i - 2) && w[i - 7] == Schedule(blk, i - 7);
        assert w[i - 15] == Schedule(blk, i - 15) && w[i - 16] == Schedule(blk, i - 16);
      }
    }

    /** sha256_hash: absorbs byte by byte and compresses whenever the buffer is full. */
    method Update(data: seq<byte>)
      requires Valid()
      modifies this, buf
      ensures Valid() && buf == old(buf) && absorbed == old(absorbed) + data
    {
      for i := 0 to |data|
        invariant Valid() && buf == old(buf) && absorbed == old(absorbed) + data[..i]
      {
        AbsorbByte(data[i]);
        OneByteMore(old(absorbed), data, i);
      }
      OneByteMore(old(absorbed), data, |data|);
    }

    method AbsorbByte(x: byte)
      requires Valid()
      modifies this, buf
      ensures Valid() && buf == old(buf) && absorbed == old(absorbed) + [x]
    {
      ghost var m, c := absorbed, 64 * blocks;
      buf[len] := x;
      len := len + 1;
      absorbed := absorbed + [x];
      assert absorbed[..c] == m[..c];
      assert buf[..len] == absorbed[c..];
      if len == 64 {
        assert buf[..] == buf[..len];
        Flush();
      }
    }

    /** A full buffer is compressed and counted. */
    method Flush()
      requires IsCompression(f, k) && buf.Length == len == 64 && |absorbed| == 64 * blocks + 64
      requires buf[..] == absorbed[64 * blocks..] && hash == Chain(f, H0, absorbed[..64 * blocks], blocks)
      requires Bits() == 512 * blocks % COUNTER_LIMIT
      modifies `hash, `bits0, `bits1, `len, `blocks
      ensures Valid()
    {
      ghost var n := blocks + 1;
      CompressFull();
      CountBlock(n);
      len := 0;
      blocks := n;
      WholeAndNothing(absorbed, 64 * n);
    }

    /** The `n`-th block is counted. */
    method CountBlock(ghost n: nat)
      requires n > 0 && Bits() == 512 * (n - 1) % COUNTER_LIMIT
      modifies `bits0, `bits1
      ensures Bits() == 512 * n % COUNTER_LIMIT
    {
      AddBits(512, 512 * (n - 1));
    }

    method CompressFull()
      requires IsCompression(f, k) && buf.Length == 64 && |absorbed| == 64 * blocks + 64
      requires buf[..] == absorbed[64 * blocks..] && hash == Chain(f, H0, absorbed[..64 * blocks], blocks)
      modifies `hash
      ensures hash == Chain(f, H0, absorbed, blocks + 1)
    {
      HashBlock();
      assert absorbed[..64 * blocks] + absorbed[64 * blocks..] == absorbed;
      ChainGrows(f, H0, absorbed[..64 * blocks], blocks, absorbed[64 * blocks..]);
    }

    /** sha256_done: pads in place, compresses one or two more blocks and writes the digest. */
    method Done() returns (digest: seq<byte>)
      requires Valid()
      modifies this, buf
      ensures digest == HashWith(f, old(absorbed))
    {
      Finish();
      digest := WriteDigest(Parts(hash));
    }

    method Finish()
      requires Valid()
      modifies this, buf
      ensures hash == FinalHash(f, old(absorbed))
    {
      LastBlocks(f, absorbed, blocks, hash);
      MarkEnd();
      AppendLength();
      HashBlock();
    }

    method AppendLength()
      requires buf.Length == 64 && len < 64 && |absorbed| == 64 * blocks + len
      requires Bits() == 512 * blocks % COUNTER_LIMIT
      modifies `bits0, `bits1, buf
      ensures buf[..] == old(buf[..56]) + LengthField(|absorbed|)
    {
      AddBits(len * 8, 512 * blocks);
      assert 512 * blocks + len * 8 == 8 * |absorbed|;
      StoreLength(|absorbed|);
    }

    /** The end marker; when the length does not fit behind it, the block is compressed and a fresh one begun. */
    method MarkEnd()
      requires Valid()
      modifies `hash, buf
      ensures var tail := absorbed[64 * blocks..];
        hash == HashBefore(f, old(hash), tail) && buf[..56] == FrontOf(tail)
    {
      ghost var tail := buf[..len];
      FillFrom(len % 64);
      if len > 55 {
        HashBlock();
        ClearBuffer();
        assert buf[..56] == buf[..][..56] == Zeros(56);
      } else {
        assert buf[..56] == buf[..][..56] == (tail + [0x80] + Zeros(63 - len))[..56];
      }
    }

    /** The end marker at `j` and zeros behind it. */
    method FillFrom(j: nat)
      requires buf.Length == 64 && j < 64
      modifies buf
      ensures buf[..] == old(buf[..j]) + [0x80] + Zeros(63 - j)
    {
      buf[j] := 0x80;
      for i := j + 1 to 64
        invariant buf[..j] == old(buf[..j]) && buf[j] == 0x80
        invariant forall k :: j < k < i ==> buf[k] == 0
      {
        buf[i] := 0x00;
      }
    }

    method ClearBuffer()
      requires buf.Length == 64
      modifies buf
      ensures buf[..] == Zeros(64)
    {
      for j := 0 to 64
        invariant forall k :: 0 <= k < j ==> buf[k] == 0
      {
        buf[j] := 0x00;
      }
    }

    /** The bit counter in the last eight bytes of the buffer. */
    method StoreLength(ghost n: nat)
      requires buf.Length == 64 && Bits() == 8 * n % COUNTER_LIMIT
      modifies buf
      ensures buf[..] == old(buf[..56]) + LengthField(n)
    {
      StoreWord(60, bits0);
      StoreWord(56, bits1);
      BigEndianSplits(Bits(), bits1, bits0, 4, 4);
      JoinLength(old(buf[..]), BigEndian(bits1, 4), BigEndian(bits0, 4));
    }

    method StoreWord(off: nat, x: counter)
      requires buf.Length == 64 && off <= 60
      modifies buf
      ensures buf[..] == old(buf[..off]) + BigEndian(x, 4) + old(buf[off + 4..])
      ensures Power256(4) == WORD_LIMIT
    {
      buf[off + 3] := CounterByte(x, 0);
      buf[off + 2] := CounterByte(x, 1);
      buf[off + 1] := CounterByte(x, 2);
      buf[off] := CounterByte(x, 3);
      WordIsBigEndian(x);
      Power4();
    }

    /** The output loop: in round i the i-th byte of every word is written to its place. */
    static method WriteDigest(parts: seq<seq<byte>>) returns (digest: seq<byte>)
      requires |parts| == 8 && forall q :: 0 <= q < 8 ==> |parts[q]| == 4
      ensures digest == Concat(parts)
    {
      var out := new byte[32];
      for i := 0 to 4
        invariant forall q, k :: 0 <= q < 8 && 0 <= k < i ==> out[4 * q + k] == parts[q][k]
      {
        for p := 0 to 8
          invariant forall q, k :: 0 <= q < 8 && 0 <= k < i ==> out[4 * q + k] == parts[q][k]
          invariant forall q :: 0 <= q < p ==> out[4 * q + i] == parts[q][i]
        {
          out[4 * p + i] := parts[p][i];
        }
      }
      digest := out[..];
      forall j | 0 <= j < 32 ensures digest[j] == Concat(parts)[j] {
        var q, k := j / 4, j % 4;
        assert digest[4 * q + k] == parts[q][k];
        ConcatIndex(parts, q, k);
      }
    }
  }

  /** The working variables before round t; the quantifier keeps the rounds folded. */
  ghost predicate Working(k: seq<word>, h: Registers, blk: block, t: nat, r: Registers)
    requires |k| == 64
  {
    forall i :: i == t && i <= 64 ==> r == Rounds(k, h, blk, i)
  }

  /** The t-th word of the message schedule, likewise. */
  ghost predicate IsWord(blk: block, t: nat, x: word) {
    forall i :: i == t && i < 64 ==> x == Schedule(blk, i)
  }

  // --- counting bits --------------------------------------------------------------------------------------

  lemma OneByteMore(a: seq<byte>, data: seq<byte>, i: nat)
    ensures i < |data| ==> a + data[..i] + [data[i]] == a + data[..i + 1]
    ensures a + data[..|data|] == a + data
  {
  }

  lemma WholeAndNothing(a: seq<byte>, n: nat)
    requires |a| == n
    ensures a[..n] == a && a[n..] == []
  {
  }

  lemma AddMod(x: nat, y: nat)
    ensures (x % COUNTER_LIMIT + y) % COUNTER_LIMIT == (x + y) % COUNTER_LIMIT
  {
    var q := x / COUNTER_LIMIT;
    assert x + y == q * COUNTER_LIMIT + (x % COUNTER_LIMIT + y);
  }

  /** The i-th byte of a counter word, from the low end: _shb with a shift of 8 * i. */
  function CounterByte(x: counter, i: nat): byte {
    if i == 0 then x % 256 else CounterByte(x / 256, i - 1)
  }

  lemma {:induction false} BigEndianBytes(x: counter, width: nat, i: nat)
    requires i < width
    ensures BigEndian(x, width)[width - 1 - i] == CounterByte(x, i)
    decreases i
  {
    if i > 0 {
      BigEndianBytes(x / 256, width - 1, i - 1);
    }
  }

  lemma WordIsBigEndian(x: counter)
    ensures BigEndian(x, 4) == [CounterByte(x, 3), CounterByte(x, 2), CounterByte(x, 1), CounterByte(x, 0)]
  {
    BigEndianBytes(x, 4, 0);
    BigEndianBytes(x, 4, 1);
    BigEndianBytes(x, 4, 2);
    BigEndianBytes(x, 4, 3);
  }

  lemma {:induction false} BigEndianSplits(x: nat, high: nat, low: nat, width: nat, n: nat)
    requires low < Power256(n) && x == high * Power256(n) + low
    ensures BigEndian(x, width + n) == BigEndian(high, width) + BigEndian(low, n)
    decreases n
  {
    if n > 0 {
      var p := Power256(n - 1);
      Regroup(high, p);
      LastByte(x, high * p, low);
      BigEndianSplits(x / 256, high, low / 256, width, n - 1);
    }
  }

  lemma JoinLength(a: seq<byte>, x: seq<byte>, y: seq<byte>)
    requires |a| == 64 && |x| == |y| == 4
    ensures var first := a[..60] + y + a[64..];
      first[..56] + x + first[60..] == a[..56] + (x + y)
  {
  }

  lemma Regroup(a: nat, p: nat)
    ensures a * (256 * p) == 256 * (a * p)
  {
  }

  lemma LastByte(x: nat, t: nat, low: nat)
    requires x == 256 * t + low
    ensures x / 256 == t + low / 256 && x % 256 == low % 256
  {
  }

  lemma Power4()
    ensures Power256(4) == WORD_LIMIT
  {
    assert Power256(2) == 0x1_0000;
  }

  // --- the last blocks ------------------------------------------------------------------------------------

  /** The 56 bytes before the length in the last block, for the bytes left over. */
  function FrontOf(tail: seq<byte>): (r: seq<byte>)
    requires |tail| < 64
    ensures |r| == 56
  {
    if |tail| > 55 then Zeros(56) else tail + [0x80] + Zeros(55 - |tail|)
  }

  /** The hash value before the last block. */
  function HashBefore(f: Step, h: Registers, tail: seq<byte>): Registers
    requires |tail| < 64
  {
    if |tail| > 55 then f(h, tail + [0x80] + Zeros(63 - |tail|)) else h
  }

  /** The block that the end marker fills when the length does not fit behind it. */
  function ExtraBlock(tail: seq<byte>): (r: seq<byte>)
    requires |tail| < 64
    ensures |r| == if |tail| > 55 then 64 else 0
  {
    if |tail| > 55 then tail + [0x80] + Zeros(63 - |tail|) else []
  }

  /** The padded message, cut into whole blocks. */
  lemma PaddedBlocks(m: seq<byte>, blocks: nat)
    requires 64 * blocks <= |m| < 64 * blocks + 64
    ensures var tail := m[64 * blocks..];
      Pad(m) == m[..64 * blocks] + ExtraBlock(tail) + (FrontOf(tail) + LengthField(|m|))
  {
    var tail := m[64 * blocks..];
    ZeroCountShape(|m|, ZeroCount(|m|));
    assert |m| / 64 == blocks && |m| % 64 == |tail|;
    assert m == m[..64 * blocks] + tail;
    if |tail| > 55 {
      assert Zeros(ZeroCount(|m|)) == Zeros(63 - |tail|) + Zeros(56);
    }
  }

  lemma ExtraBlockHashed(f: Step, whole: seq<byte>, tail: seq<byte>, blocks: nat)
    requires |whole| == 64 * blocks && |tail| < 64
    ensures Chain(f, H0, whole + ExtraBlock(tail), if |tail| > 55 then blocks + 1 else blocks)
         == HashBefore(f, Chain(f, H0, whole, blocks), tail)
  {
    if |tail| > 55 {
      ChainGrows(f, H0, whole, blocks, ExtraBlock(tail));
    } else {
      assert whole + ExtraBlock(tail) == whole;
    }
  }

  /** The hash of a message from the hash of its whole blocks. */
  lemma LastBlocks(f: Step, m: seq<byte>, blocks: nat, h: Registers)
    requires 64 * blocks <= |m| < 64 * blocks + 64 && h == Chain(f, H0, m[..64 * blocks], blocks)
    ensures var tail := m[64 * blocks..];
      FinalHash(f, m) == f(HashBefore(f, h, tail), FrontOf(tail) + LengthField(|m|))
  {
    var whole, tail := m[..64 * blocks], m[64 * blocks..];
    var extra := ExtraBlock(tail);
    var n := if |tail| > 55 then blocks + 1 else blocks;
    PaddedBlocks(m, blocks);
    assert PadBlocks(|m|) == n + 1;
    ExtraBlockHashed(f, whole, tail, blocks);
    ChainGrows(f, H0, whole + extra, n, FrontOf(tail) + LengthField(|m|));
  }

  // --- whole messages -------------------------------------------------------------------------------------

  /** sha256 */
  method Sha256Of(data: seq<byte>) returns (digest: seq<byte>)
    ensures digest == Sha256(K256, data)
  {
    digest := HashChunks(K256, [data]);
    assert [data][..0] == [] && [] + data == data;
  }

  function Flatten(chunks: seq<seq<byte>>): seq<byte> {
    if chunks == [] then [] else Flatten(chunks[..|chunks| - 1]) + chunks[|chunks| - 1]
  }

  /** Any sequence of sha256_hash calls between sha256_init and sha256_done: only the concatenation counts. */
  method HashChunks(k: seq<word>, chunks: seq<seq<byte>>) returns (digest: seq<byte>)
    requires |k| == 64
    ensures digest == Sha256(k, Flatten(chunks))
  {
    var ctx := new Context(k);
    for i := 0 to |chunks|
      invariant ctx.Valid() && ctx.absorbed == Flatten(chunks[..i])
      invariant fresh(ctx) && fresh(ctx.buf)
    {
      ctx.Update(chunks[i]);
      assert chunks[..i + 1][..i] == chunks[..i];
    }
    assert chunks[..|chunks|] == chunks;
    digest := ctx.Done();
    CompressionHashes(ctx.f, k, Flatten(chunks));
  }
}
