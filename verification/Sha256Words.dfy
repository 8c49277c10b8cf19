/** What the shifts of sources/utility/sha256.c mean as numbers: the bytes of a word are its digits in base 256, the
    most significant first, in both directions. */
module Sha256Words {
  import opened Words
  import opened Sha256Spec

  // --- one bit of a word is one binary digit of the number -----------------------------------------------

  lemma LowBits(n: nat, b: bv8)
    requires n < WORD_LIMIT && b == ((n as word) & 0xff) as bv8
    ensures OddByte(b) == Odd(n)
    ensures OddByte(b >> 1) == Odd(n / 0x2)
    ensures OddByte(b >> 2) == Odd(n / 0x4)
    ensures OddByte(b >> 3) == Odd(n / 0x8)
    ensures OddByte(b >> 4) == Odd(n / 0x10)
    ensures OddByte(b >> 5) == Odd(n / 0x20)
    ensures OddByte(b >> 6) == Odd(n / 0x40)
    ensures OddByte(b >> 7) == Odd(n / 0x80)
  {
  }

  lemma SecondBits(n: nat, b: bv8)
    requires n < WORD_LIMIT && b == (((n as word) >> 8) & 0xff) as bv8
    ensures OddByte(b) == Odd(n / 0x100)
    ensures OddByte(b >> 1) == Odd(n / 0x200)
    ensures OddByte(b >> 2) == Odd(n / 0x400)
    ensures OddByte(b >> 3) == Odd(n / 0x800)
    ensures OddByte(b >> 4) == Odd(n / 0x1000)
    ensures OddByte(b >> 5) == Odd(n / 0x2000)
    ensures OddByte(b >> 6) == Odd(n / 0x4000)
    ensures OddByte(b >> 7) == Odd(n / 0x8000)
  {
  }

  lemma ThirdBits(n: nat, b: bv8)
    requires n < WORD_LIMIT && b == (((n as word) >> 16) & 0xff) as bv8
    ensures OddByte(b) == Odd(n / 0x10000)
    ensures OddByte(b >> 1) == Odd(n / 0x20000)
    ensures OddByte(b >> 2) == Odd(n / 0x40000)
    ensures OddByte(b >> 3) == Odd(n / 0x80000)
    ensures OddByte(b >> 4) == Odd(n / 0x100000)
    ensures OddByte(b >> 5) == Odd(n / 0x200000)
    ensures OddByte(b >> 6) == Odd(n / 0x400000)
    ensures OddByte(b >> 7) == Odd(n / 0x800000)
  {
  }

  lemma HighBits(n: nat, b: bv8)
    requires n < WORD_LIMIT && b == (((n as word) >> 24) & 0xff) as bv8
    ensures OddByte(b) == Odd(n / 0x1000000)
    ensures OddByte(b >> 1) == Odd(n / 0x2000000)
    ensures OddByte(b >> 2) == Odd(n / 0x4000000)
    ensures OddByte(b >> 3) == Odd(n / 0x8000000)
    ensures OddByte(b >> 4) == Odd(n / 0x10000000)
    ensures OddByte(b >> 5) == Odd(n / 0x20000000)
    ensures OddByte(b >> 6) == Odd(n / 0x40000000)
    ensures OddByte(b >> 7) == Odd(n / 0x80000000)
  {
  }

  lemma LowHalves(n: nat)
    ensures n / 2 == n / 0x2
    ensures n / 0x2 / 2 == n / 0x4
    ensures n / 0x4 / 2 == n / 0x8
    ensures n / 0x8 / 2 == n / 0x10
    ensures n / 0x10 / 2 == n / 0x20
    ensures n / 0x20 / 2 == n / 0x40
    ensures n / 0x40 / 2 == n / 0x80
  {
  }

  lemma SecondHalves(n: nat)
    ensures n / 0x100 / 2 == n / 0x200
    ensures n / 0x200 / 2 == n / 0x400
    ensures n / 0x400 / 2 == n / 0x800
    ensures n / 0x800 / 2 == n / 0x1000
    ensures n / 0x1000 / 2 == n / 0x2000
    ensures n / 0x2000 / 2 == n / 0x4000
    ensures n / 0x4000 / 2 == n / 0x8000
  {
  }

  lemma ThirdHalves(n: nat)
    ensures n / 0x10000 / 2 == n / 0x20000
    ensures n / 0x20000 / 2 == n / 0x40000
    ensures n / 0x40000 / 2 == n / 0x80000
    ensures n / 0x80000 / 2 == n / 0x100000
    ensures n / 0x100000 / 2 == n / 0x200000
    ensures n / 0x200000 / 2 == n / 0x400000
    ensures n / 0x400000 / 2 == n / 0x800000
  {
  }

  lemma HighHalves(n: nat)
    ensures n / 0x1000000 / 2 == n / 0x2000000
    ensures n / 0x2000000 / 2 == n / 0x4000000
    ensures n / 0x4000000 / 2 == n / 0x8000000
    ensures n / 0x8000000 / 2 == n / 0x10000000
    ensures n / 0x10000000 / 2 == n / 0x20000000
    ensures n / 0x20000000 / 2 == n / 0x40000000
    ensures n / 0x40000000 / 2 == n / 0x80000000
  {
  }

  lemma Remainder(n: nat, q: nat, r: nat)
    requires n == 256 * q + r && r < 256
    ensures n % 256 == r
  {
  }

  lemma DigitSum(q0: nat, q1: nat, q2: nat, q3: nat, q4: nat, q5: nat, q6: nat, q7: nat)
    requires q1 == q0 / 2 && q2 == q1 / 2 && q3 == q2 / 2 && q4 == q3 / 2
    requires q5 == q4 / 2 && q6 == q5 / 2 && q7 == q6 / 2
    ensures q0 % 256 == q0 % 2 + 2 * (q1 % 2) + 4 * (q2 % 2) + 8 * (q3 % 2)
                      + 16 * (q4 % 2) + 32 * (q5 % 2) + 64 * (q6 % 2) + 128 * (q7 % 2)
  {
    Remainder(q0, q7 / 2, q0 % 2 + 2 * (q1 % 2) + 4 * (q2 % 2) + 8 * (q3 % 2)
                        + 16 * (q4 % 2) + 32 * (q5 % 2) + 64 * (q6 % 2) + 128 * (q7 % 2));
  }

  function OneIf(c: bool): nat { if c then 1 else 0 }

  /** The number with the given binary digits, the lowest first. */
  function Sum(c0: bool, c1: bool, c2: bool, c3: bool, c4: bool, c5: bool, c6: bool, c7: bool): nat {
    OneIf(c0) + 2 * OneIf(c1) + 4 * OneIf(c2) + 8 * OneIf(c3)
    + 16 * OneIf(c4) + 32 * OneIf(c5) + 64 * OneIf(c6) + 128 * OneIf(c7)
  }

  predicate Odd(n: nat) { n % 2 == 1 }

  lemma OneIfOdd(n: nat)
    ensures OneIf(Odd(n)) == n % 2
  {
  }

  lemma NumberBits(q0: nat, q1: nat, q2: nat, q3: nat, q4: nat, q5: nat, q6: nat, q7: nat)
    requires q1 == q0 / 2 && q2 == q1 / 2 && q3 == q2 / 2 && q4 == q3 / 2
    requires q5 == q4 / 2 && q6 == q5 / 2 && q7 == q6 / 2
    ensures q0 % 256 == Sum(Odd(q0), Odd(q1), Odd(q2), Odd(q3), Odd(q4), Odd(q5), Odd(q6), Odd(q7))
  {
    DigitSum(q0, q1, q2, q3, q4, q5, q6, q7);
    OneIfOdd(q0);
    OneIfOdd(q1);
    OneIfOdd(q2);
    OneIfOdd(q3);
    OneIfOdd(q4);
    OneIfOdd(q5);
    OneIfOdd(q6);
    OneIfOdd(q7);
  }

  predicate OddByte(b: bv8) { b & 1 == 1 }

  lemma ByteBits(b: bv8)
    ensures b as int == Sum(OddByte(b), OddByte(b >> 1), OddByte(b >> 2), OddByte(b >> 3),
                            OddByte(b >> 4), OddByte(b >> 5), OddByte(b >> 6), OddByte(b >> 7))
  {
  }

  lemma SameSums(v: int, c0: bool, c1: bool, c2: bool, c3: bool, c4: bool, c5: bool, c6: bool, c7: bool,
                 w: int, d0: bool, d1: bool, d2: bool, d3: bool, d4: bool, d5: bool, d6: bool, d7: bool)
    requires v == Sum(c0, c1, c2, c3, c4, c5, c6, c7) && w == Sum(d0, d1, d2, d3, d4, d5, d6, d7)
    requires c0 == d0 && c1 == d1 && c2 == d2 && c3 == d3 && c4 == d4 && c5 == d5 && c6 == d6 && c7 == d7
    ensures v == w
  {
  }

  /** Eight equal binary digits make an equal byte. */
  lemma SameBits(b: bv8, q0: nat, q1: nat, q2: nat, q3: nat, q4: nat, q5: nat, q6: nat, q7: nat)
    requires q1 == q0 / 2 && q2 == q1 / 2 && q3 == q2 / 2 && q4 == q3 / 2
    requires q5 == q4 / 2 && q6 == q5 / 2 && q7 == q6 / 2
    requires OddByte(b) == Odd(q0) && OddByte(b >> 1) == Odd(q1)
    requires OddByte(b >> 2) == Odd(q2) && OddByte(b >> 3) == Odd(q3)
    requires OddByte(b >> 4) == Odd(q4) && OddByte(b >> 5) == Odd(q5)
    requires OddByte(b >> 6) == Odd(q6) && OddByte(b >> 7) == Odd(q7)
    ensures b as int == q0 % 256
  {
    ByteBits(b);
    NumberBits(q0, q1, q2, q3, q4, q5, q6, q7);
    SameSums(b as int, OddByte(b), OddByte(b >> 1), OddByte(b >> 2), OddByte(b >> 3),
             OddByte(b >> 4), OddByte(b >> 5), OddByte(b >> 6), OddByte(b >> 7),
             q0 % 256, Odd(q0), Odd(q1), Odd(q2), Odd(q3), Odd(q4), Odd(q5), Odd(q6), Odd(q7));
  }

  lemma LowByte(n: nat)
    requires n < WORD_LIMIT
    ensures ((n as word) & 0xff) as bv8 as int == n % 256
  {
    var b := ((n as word) & 0xff) as bv8;
    LowBits(n, b);
    LowHalves(n);
    SameBits(b, n, n / 0x2, n / 0x4, n / 0x8, n / 0x10, n / 0x20, n / 0x40, n / 0x80);
  }

  lemma SecondByte(n: nat)
    requires n < WORD_LIMIT
    ensures (((n as word) >> 8) & 0xff) as bv8 as int == n / 0x100 % 256
  {
    var b := (((n as word) >> 8) & 0xff) as bv8;
    SecondBits(n, b);
    SecondHalves(n);
    SameBits(b, n / 0x100, n / 0x200, n / 0x400, n / 0x800,
             n / 0x1000, n / 0x2000, n / 0x4000, n / 0x8000);
  }

  lemma ThirdByte(n: nat)
    requires n < WORD_LIMIT
    ensures (((n as word) >> 16) & 0xff) as bv8 as int == n / 0x10000 % 256
  {
    var b := (((n as word) >> 16) & 0xff) as bv8;
    ThirdBits(n, b);
    ThirdHalves(n);
    SameBits(b, n / 0x10000, n / 0x20000, n / 0x40000, n / 0x80000,
             n / 0x100000, n / 0x200000, n / 0x400000, n / 0x800000);
  }

  lemma HighByte(n: nat)
    requires n < WORD_LIMIT
    ensures (((n as word) >> 24) & 0xff) as bv8 as int == n / 0x1000000 % 256
  {
    var b := (((n as word) >> 24) & 0xff) as bv8;
    HighBits(n, b);
    HighHalves(n);
    SameBits(b, n / 0x1000000, n / 0x2000000, n / 0x4000000, n / 0x8000000,
             n / 0x10000000, n / 0x20000000, n / 0x40000000, n / 0x80000000);
  }

  // --- the bytes of a word --------------------------------------------------------------------------------

  lemma NumberBytes(n: nat)
    requires n < WORD_LIMIT
    ensures WordBytes(n as word) == [n / 0x100_0000 % 256, n / 0x1_0000 % 256, n / 0x100 % 256, n % 256]
  {
    LowByte(n);
    SecondByte(n);
    ThirdByte(n);
    HighByte(n);
  }

  lemma Quotients(n: nat)
    ensures n / 256 / 256 == n / 0x1_0000 && n / 256 / 256 / 256 == n / 0x100_0000
  {
  }

  lemma FourDigits(n: nat)
    ensures BigEndian(n, 4) == [n / 0x100_0000 % 256, n / 0x1_0000 % 256, n / 0x100 % 256, n % 256]
  {
    Quotients(n);
    assert BigEndian(n / 256 / 256 / 256, 1) == [n / 256 / 256 / 256 % 256];
    assert BigEndian(n / 256 / 256, 2) == BigEndian(n / 256 / 256 / 256, 1) + [n / 256 / 256 % 256];
    assert BigEndian(n / 256, 3) == BigEndian(n / 256 / 256, 2) + [n / 256 % 256];
  }

  lemma NumberWord(w: word, n: nat)
    requires n < WORD_LIMIT && w == n as word
    ensures WordBytes(w) == BigEndian(n, 4)
  {
    NumberBytes(n);
    FourDigits(n);
  }

  lemma ThereAndBack(w: word)
    ensures (w as int) as word == w
  {
  }

  /** The bytes of a word are its number in base 256, the most significant digit first. */
  lemma WordBytesAreBigEndian(w: word)
    ensures WordBytes(w) == BigEndian(w as int, 4)
  {
    ThereAndBack(w);
    NumberWord(w, w as int);
  }

  // --- a word from its bytes ------------------------------------------------------------------------------

  lemma SmallWord(b: byte, x: word)
    requires x == b as word
    ensures x & 0xff == x && (x & 0xff) as bv8 as int == b
  {
    LowByte(b);
    assert x <= 0xff;
  }

  lemma Shifted(x0: word, x1: word, x2: word, x3: word, w: word)
    requires x0 & 0xff == x0 && x1 & 0xff == x1 && x2 & 0xff == x2 && x3 & 0xff == x3
    requires w == (x0 << 24) | (x1 << 16) | (x2 << 8) | x3
    ensures (w >> 24) & 0xff == x0 && (w >> 16) & 0xff == x1 && (w >> 8) & 0xff == x2 && w & 0xff == x3
  {
  }

  lemma SmallByte(y: word, x: word, b: byte)
    requires y & 0xff == x == x & 0xff && (x & 0xff) as bv8 as int == b
    ensures (y & 0xff) as bv8 as int == b
  {
  }

  lemma Apart(x0: word, x1: word, x2: word, x3: word, w: word, b0: byte, b1: byte, b2: byte, b3: byte)
    requires x0 & 0xff == x0 && x1 & 0xff == x1 && x2 & 0xff == x2 && x3 & 0xff == x3
    requires w == (x0 << 24) | (x1 << 16) | (x2 << 8) | x3
    requires (x0 & 0xff) as bv8 as int == b0 && (x1 & 0xff) as bv8 as int == b1
    requires (x2 & 0xff) as bv8 as int == b2 && (x3 & 0xff) as bv8 as int == b3
    ensures ((w >> 24) & 0xff) as bv8 as int == b0 && ((w >> 16) & 0xff) as bv8 as int == b1
    ensures ((w >> 8) & 0xff) as bv8 as int == b2 && (w & 0xff) as bv8 as int == b3
  {
    HighApart(x0, x1, x2, x3, w, b0, b1);
    LowApart(x0, x1, x2, x3, w, b2, b3);
  }

  lemma HighApart(x0: word, x1: word, x2: word, x3: word, w: word, b0: byte, b1: byte)
    requires x0 & 0xff == x0 && x1 & 0xff == x1 && x2 & 0xff == x2 && x3 & 0xff == x3
    requires w == (x0 << 24) | (x1 << 16) | (x2 << 8) | x3
    requires (x0 & 0xff) as bv8 as int == b0 && (x1 & 0xff) as bv8 as int == b1
    ensures ((w >> 24) & 0xff) as bv8 as int == b0 && ((w >> 16) & 0xff) as bv8 as int == b1
  {
    Shifted(x0, x1, x2, x3, w);
    SmallByte(w >> 24, x0, b0);
    SmallByte(w >> 16, x1, b1);
  }

  lemma LowApart(x0: word, x1: word, x2: word, x3: word, w: word, b2: byte, b3: byte)
    requires x0 & 0xff == x0 && x1 & 0xff == x1 && x2 & 0xff == x2 && x3 & 0xff == x3
    requires w == (x0 << 24) | (x1 << 16) | (x2 << 8) | x3
    requires (x2 & 0xff) as bv8 as int == b2 && (x3 & 0xff) as bv8 as int == b3
    ensures ((w >> 8) & 0xff) as bv8 as int == b2 && (w & 0xff) as bv8 as int == b3
  {
    Shifted(x0, x1, x2, x3, w);
    SmallByte(w >> 8, x2, b2);
    SmallByte(w, x3, b3);
  }

  lemma BytesOf(w: word, b0: byte, b1: byte, b2: byte, b3: byte)
    requires ((w >> 24) & 0xff) as bv8 as int == b0 && ((w >> 16) & 0xff) as bv8 as int == b1
    requires ((w >> 8) & 0xff) as bv8 as int == b2 && (w & 0xff) as bv8 as int == b3
    ensures WordBytes(w) == [b0, b1, b2, b3]
  {
  }

  lemma WordShape(b0: byte, b1: byte, b2: byte, b3: byte, x0: word, x1: word, x2: word, x3: word)
    requires x0 == b0 as word && x1 == b1 as word && x2 == b2 as word && x3 == b3 as word
    ensures Word(b0, b1, b2, b3) == (x0 << 24) | (x1 << 16) | (x2 << 8) | x3
  {
  }

  lemma SmallWords(b0: byte, b1: byte, b2: byte, b3: byte, x0: word, x1: word, x2: word, x3: word)
    requires x0 == b0 as word && x1 == b1 as word && x2 == b2 as word && x3 == b3 as word
    ensures x0 & 0xff == x0 && x1 & 0xff == x1 && x2 & 0xff == x2 && x3 & 0xff == x3
    ensures (x0 & 0xff) as bv8 as int == b0 && (x1 & 0xff) as bv8 as int == b1
    ensures (x2 & 0xff) as bv8 as int == b2 && (x3 & 0xff) as bv8 as int == b3
  {
    SmallWord(b0, x0);
    SmallWord(b1, x1);
    SmallWord(b2, x2);
    SmallWord(b3, x3);
  }

  /** The bytes of a word read from a buffer are the bytes that were read. */
  lemma BytesOfWord(b0: byte, b1: byte, b2: byte, b3: byte)
    ensures WordBytes(Word(b0, b1, b2, b3)) == [b0, b1, b2, b3]
  {
    var w := Word(b0, b1, b2, b3);
    SplitWord(b0, b1, b2, b3, w, b0 as word, b1 as word, b2 as word, b3 as word);
    BytesOf(w, b0, b1, b2, b3);
  }

  lemma SplitWord(b0: byte, b1: byte, b2: byte, b3: byte, w: word, x0: word, x1: word, x2: word, x3: word)
    requires x0 == b0 as word && x1 == b1 as word && x2 == b2 as word && x3 == b3 as word
    requires w == Word(b0, b1, b2, b3)
    ensures ((w >> 24) & 0xff) as bv8 as int == b0 && ((w >> 16) & 0xff) as bv8 as int == b1
    ensures ((w >> 8) & 0xff) as bv8 as int == b2 && (w & 0xff) as bv8 as int == b3
  {
    WordShape(b0, b1, b2, b3, x0, x1, x2, x3);
    SmallWords(b0, b1, b2, b3, x0, x1, x2, x3);
    Apart(x0, x1, x2, x3, w, b0, b1, b2, b3);
  }

  lemma FromDigits(n: nat, b0: byte, b1: byte, b2: byte, b3: byte)
    requires n < WORD_LIMIT
    requires b0 == n / 0x100_0000 % 256 && b1 == n / 0x1_0000 % 256 && b2 == n / 256 % 256 && b3 == n % 256
    ensures n == ((b0 * 256 + b1) * 256 + b2) * 256 + b3
  {
    var q := n / 256;
    var p := q / 256;
    var o := p / 256;
    assert p == n / 0x1_0000 && o == n / 0x100_0000;
    assert n == 256 * q + b3 && q == 256 * p + b2 && p == 256 * o + b1;
  }

  lemma FromBigEndian(n: nat, b0: byte, b1: byte, b2: byte, b3: byte)
    requires n < WORD_LIMIT && BigEndian(n, 4) == [b0, b1, b2, b3]
    ensures n == ((b0 * 256 + b1) * 256 + b2) * 256 + b3
  {
    FourDigits(n);
    SameFour(b0, b1, b2, b3, n / 0x100_0000 % 256, n / 0x1_0000 % 256, n / 0x100 % 256, n % 256);
    FromDigits(n, b0, b1, b2, b3);
  }

  lemma SameFour(a0: int, a1: int, a2: int, a3: int, b0: int, b1: int, b2: int, b3: int)
    requires [a0, a1, a2, a3] == [b0, b1, b2, b3]
    ensures a0 == b0 && a1 == b1 && a2 == b2 && a3 == b3
  {
    assert [a0, a1, a2, a3][0] == a0 && [a0, a1, a2, a3][1] == a1;
    assert [a0, a1, a2, a3][2] == a2 && [a0, a1, a2, a3][3] == a3;
  }

  /** A word read from a buffer is the number with these digits in base 256. */
  lemma WordIsTheNumber(b0: byte, b1: byte, b2: byte, b3: byte)
    ensures Word(b0, b1, b2, b3) as int == ((b0 * 256 + b1) * 256 + b2) * 256 + b3
  {
    BytesOfWord(b0, b1, b2, b3);
    WordHasDigits(Word(b0, b1, b2, b3), b0, b1, b2, b3);
  }

  lemma WordHasDigits(w: word, b0: byte, b1: byte, b2: byte, b3: byte)
    requires WordBytes(w) == [b0, b1, b2, b3]
    ensures w as int == ((b0 * 256 + b1) * 256 + b2) * 256 + b3
  {
    WordBytesAreBigEndian(w);
    FromBigEndian(w as int, b0, b1, b2, b3);
  }

  // --- the digest -----------------------------------------------------------------------------------------

  lemma EightParts(p: seq<seq<byte>>)
    requires |p| == 8 && forall q :: 0 <= q < 8 ==> |p[q]| == 4
    ensures Concat(p) == (p[0] + p[1] + p[2] + p[3]) + (p[4] + p[5] + p[6] + p[7])
  {
    forall j | 0 <= j < 32
      ensures Concat(p)[j] == ((p[0] + p[1] + p[2] + p[3]) + (p[4] + p[5] + p[6] + p[7]))[j]
    {
      ConcatIndex(p, j / 4, j % 4);
    }
  }

  /** A digest is the eight words of the hash value as numbers, the most significant byte of each first. */
  lemma DigestIsBigEndian(h: Registers)
    ensures Digest(h)
         == (BigEndian(h.a as int, 4) + BigEndian(h.b as int, 4) + BigEndian(h.c as int, 4) + BigEndian(h.d as int, 4))
          + (BigEndian(h.e as int, 4) + BigEndian(h.f as int, 4) + BigEndian(h.g as int, 4) + BigEndian(h.h as int, 4))
  {
    EightParts(Parts(h));
    WordBytesAreBigEndian(h.a);
    WordBytesAreBigEndian(h.b);
    WordBytesAreBigEndian(h.c);
    WordBytesAreBigEndian(h.d);
    WordBytesAreBigEndian(h.e);
    WordBytesAreBigEndian(h.f);
    WordBytesAreBigEndian(h.g);
    WordBytesAreBigEndian(h.h);
  }
}
