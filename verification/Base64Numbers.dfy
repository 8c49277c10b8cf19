/** What the characters of an encoding stand for: section 4 of RFC 4648 read as arithmetic.  The place of a character in
    the alphabet is a digit in base 64; the digits of a group are the number that its bytes are in base 256. */
module Base64Numbers {
  import opened Prelude
  import opened Base64

  /** Table 1 of RFC 4648, in the order of its columns. */
  const ALPHABET: string := "ABCDEFGHIJKLMNOPQ" + "RSTUVWXYZabcdefgh" + "ijklmnopqrstuvwxy" + "z0123456789+/"

  /** The character stands at place `k` of the alphabet. */
  predicate Stands(c: char, k: nat) { k < 64 && ALPHABET[k] == c }

  // --- the alphabet ---------------------------------------------------------------------------------------

  lemma FirstColumn(k: nat)
    requires k < 17
    ensures ALPHABET[k] == "ABCDEFGHIJKLMNOPQ"[k] == Letter(k)
  {
    if k < 8 {
      assert k == 0 || k == 1 || k == 2 || k == 3 || k == 4 || k == 5 || k == 6 || k == 7;
    } else {
      assert k == 8 || k == 9 || k == 10 || k == 11 || k == 12 || k == 13 || k == 14 || k == 15 || k == 16;
    }
  }

  lemma SecondColumn(k: nat)
    requires 17 <= k < 34
    ensures ALPHABET[k] == "RSTUVWXYZabcdefgh"[k - 17] == Letter(k)
  {
    var j := k - 17;
    if j < 8 {
      assert j == 0 || j == 1 || j == 2 || j == 3 || j == 4 || j == 5 || j == 6 || j == 7;
    } else {
      assert j == 8 || j == 9 || j == 10 || j == 11 || j == 12 || j == 13 || j == 14 || j == 15 || j == 16;
    }
  }

  lemma ThirdColumn(k: nat)
    requires 34 <= k < 51
    ensures ALPHABET[k] == "ijklmnopqrstuvwxy"[k - 34] == Letter(k)
  {
    var j := k - 34;
    if j < 8 {
      assert j == 0 || j == 1 || j == 2 || j == 3 || j == 4 || j == 5 || j == 6 || j == 7;
    } else {
      assert j == 8 || j == 9 || j == 10 || j == 11 || j == 12 || j == 13 || j == 14 || j == 15 || j == 16;
    }
  }

  lemma FourthColumn(k: nat)
    requires 51 <= k < 64
    ensures ALPHABET[k] == "z0123456789+/"[k - 51] == Letter(k)
  {
    var j := k - 51;
    if j < 6 {
      assert j == 0 || j == 1 || j == 2 || j == 3 || j == 4 || j == 5;
    } else {
      assert j == 6 || j == 7 || j == 8 || j == 9 || j == 10 || j == 11 || j == 12;
    }
  }

  lemma LetterAt(k: nat)
    requires k < 64
    ensures ALPHABET[k] == Letter(k)
  {
    if k < 17 {
      FirstColumn(k);
    } else if k < 34 {
      SecondColumn(k);
    } else if k < 51 {
      ThirdColumn(k);
    } else {
      FourthColumn(k);
    }
  }

  /** The table of the code is the alphabet. */
  lemma TableIsTheAlphabet(i: octet)
    requires i < 64
    ensures Stands(Charset(i), i as int)
  {
    LetterAt(i as int);
  }

  lemma Successor(i: octet)
    requires i < 255
    ensures (i + 1) as int == i as int + 1
  {
  }

  lemma {:induction false} OctetOf(k: nat) returns (i: octet)
    requires k < 256
    ensures i as int == k && (k < 255 ==> i < 255)
  {
    if k == 0 {
      i := 0;
    } else {
      var j := OctetOf(k - 1);
      Successor(j);
      i := j + 1;
      NotLast(i, k);
    }
  }

  lemma NotLast(i: octet, k: nat)
    requires i as int == k
    ensures k < 255 ==> i < 255
  {
  }

  lemma SmallOctet(k: nat)
    requires k < 256
    ensures (k as octet) as int == k
  {
    var i := OctetOf(k);
    SameByte(i, k);
  }

  /** The lookup of the decoder finds the place of a letter. */
  lemma LookupFindsThePlace(c: char, k: nat)
    requires Stands(c, k)
    ensures Revchar(c) as int == k
  {
    LetterAt(k);
    ValueOfLetter(k);
    SmallOctet(k);
  }

  // --- six bits -------------------------------------------------------------------------------------------

  lemma HighPart(x: octet)
    ensures (x >> 2) as int == x as int / 4 && (x >> 4) as int == x as int / 16 && (x >> 6) as int == x as int / 64
  {
  }

  lemma LowTwo(x: octet)
    ensures (x & 0x03) as int == x as int % 4
  {
  }

  lemma LowFour(x: octet)
    ensures (x & 0x0f) as int == x as int % 16
  {
  }

  lemma LowSix(x: octet)
    ensures (x & 0x3f) as int == x as int % 64
  {
  }

  lemma RaisedFour(x: octet)
    requires x < 16
    ensures (x << 4) as int == 16 * (x as int)
  {
  }

  lemma RaisedTwo(x: octet)
    requires x < 64
    ensures (x << 2) as int == 4 * (x as int)
  {
  }

  lemma JoinFour(a: octet, b: octet)
    requires a & 0x0f == 0 && b & 0xf0 == 0
    ensures (a | b) as int == a as int + b as int
  {
  }

  lemma JoinTwo(a: octet, b: octet)
    requires a & 0x03 == 0 && b & 0xfc == 0
    ensures (a | b) as int == a as int + b as int
  {
  }

  lemma FirstIs(x: octet)
    ensures First(x) as int == x as int / 4
  {
    HighPart(x);
  }

  lemma SecondIs(x: octet, y: octet)
    ensures Second(x, y) as int == 16 * (x as int % 4) + y as int / 16
  {
    LowTwo(x);
    RaisedFour(x & 0x03);
    HighPart(y);
    JoinFour((x & 0x03) << 4, y >> 4);
  }

  lemma ThirdIs(y: octet, z: octet)
    ensures Third(y, z) as int == 4 * (y as int % 16) + z as int / 64
  {
    LowFour(y);
    RaisedTwo(y & 0x0f);
    HighPart(z);
    JoinTwo((y & 0x0f) << 2, z >> 6);
  }

  lemma FourthIs(z: octet)
    ensures Fourth(z) as int == z as int % 64
  {
    LowSix(z);
  }

  // --- what is encoded --------------------------------------------------------------------------------------

  function Int(x: octet): nat { x as int }

  /** The characters of a group stand at the places a, b, c and d, and these are the number that the bytes are: for
      three bytes as it is, for two bytes four times, for one byte sixteen times, padded with one or two =. */
  predicate Spells(g: string, bytes: seq<octet>, a: nat, b: nat, c: nat, d: nat) {
    && |g| == 4 && Stands(g[0], a) && Stands(g[1], b)
    && (if |bytes| >= 2 then Stands(g[2], c) else g[2] == '=')
    && (if |bytes| >= 3 then Stands(g[3], d) else g[3] == '=')
    && (|bytes| == 1 ==> a * 64 + b == 16 * Int(bytes[0]))
    && (|bytes| == 2 ==> (a * 64 + b) * 64 + c == 4 * (Int(bytes[0]) * 256 + Int(bytes[1])))
    && (|bytes| == 3 ==>
          ((a * 64 + b) * 64 + c) * 64 + d == (Int(bytes[0]) * 256 + Int(bytes[1])) * 256 + Int(bytes[2]))
  }

  lemma GroupSpells(x: octet, y: octet, z: octet) returns (a: nat, b: nat, c: nat, d: nat)
    ensures Spells(Group(x, y, z), [x, y, z], a, b, c, d)
  {
    PackRanges(x, y, z);
    FirstIs(x);
    SecondIs(x, y);
    ThirdIs(y, z);
    FourthIs(z);
    a, b, c, d := Int(First(x)), Int(Second(x, y)), Int(Third(y, z)), Int(Fourth(z));
    TableIsTheAlphabet(First(x));
    TableIsTheAlphabet(Second(x, y));
    TableIsTheAlphabet(Third(y, z));
    TableIsTheAlphabet(Fourth(z));
    ThreeBytes(Int(x), Int(y), Int(z));
    ThreeAreSpelled(Group(x, y, z), [x, y, z], a, b, c, d);
  }

  lemma ThreeAreSpelled(g: string, bytes: seq<octet>, a: nat, b: nat, c: nat, d: nat)
    requires |g| == 4 && |bytes| == 3
    requires Stands(g[0], a) && Stands(g[1], b) && Stands(g[2], c) && Stands(g[3], d)
    requires ((a * 64 + b) * 64 + c) * 64 + d == (Int(bytes[0]) * 256 + Int(bytes[1])) * 256 + Int(bytes[2])
    ensures Spells(g, bytes, a, b, c, d)
  {
  }

  lemma ThreeBytes(x: nat, y: nat, z: nat)
    ensures ((x / 4 * 64 + (16 * (x % 4) + y / 16)) * 64 + (4 * (y % 16) + z / 64)) * 64 + z % 64
         == (x * 256 + y) * 256 + z
  {
  }

  lemma OneByteSpells(x: octet) returns (a: nat, b: nat)
    ensures Spells(Rest([x]), [x], a, b, 0, 0)
  {
    PackRanges(x, 0, 0);
    FirstIs(x);
    SecondIs(x, 0);
    a, b := Int(First(x)), Int(Second(x, 0));
    TableIsTheAlphabet(First(x));
    TableIsTheAlphabet(Second(x, 0));
  }

  lemma TwoBytesSpell(x: octet, y: octet) returns (a: nat, b: nat, c: nat)
    ensures Spells(Rest([x, y]), [x, y], a, b, c, 0)
  {
    a, b, c := TwoBytesAre(x, y);
    TwoAreSpelled(Rest([x, y]), [x, y], a, b, c);
  }

  lemma TwoBytesAre(x: octet, y: octet) returns (a: nat, b: nat, c: nat)
    ensures var g := Rest([x, y]);
      Stands(g[0], a) && Stands(g[1], b) && Stands(g[2], c) && g[3] == '='
    ensures (a * 64 + b) * 64 + c == 4 * (Int(x) * 256 + Int(y))
  {
    PackRanges(x, y, 0);
    TableIsTheAlphabet(First(x));
    TableIsTheAlphabet(Second(x, y));
    TableIsTheAlphabet(Third(y, 0));
    a, b, c := Int(First(x)), Int(Second(x, y)), Int(Third(y, 0));
    TwoPlaces(x, y);
  }

  lemma ThirdOfTwo(y: octet)
    ensures Int(Third(y, 0)) == 4 * (Int(y) % 16)
  {
    ThirdIs(y, 0);
  }

  lemma TwoPlaces(x: octet, y: octet)
    ensures (Int(First(x)) * 64 + Int(Second(x, y))) * 64 + Int(Third(y, 0)) == 4 * (Int(x) * 256 + Int(y))
  {
    FirstIs(x);
    SecondIs(x, y);
    ThirdOfTwo(y);
    TwoBytes(Int(x), Int(y), Int(First(x)), Int(Second(x, y)), Int(Third(y, 0)));
  }

  lemma TwoAreSpelled(g: string, bytes: seq<octet>, a: nat, b: nat, c: nat)
    requires |g| == 4 && |bytes| == 2 && Stands(g[0], a) && Stands(g[1], b) && Stands(g[2], c) && g[3] == '='
    requires (a * 64 + b) * 64 + c == 4 * (Int(bytes[0]) * 256 + Int(bytes[1]))
    ensures Spells(g, bytes, a, b, c, 0)
  {
  }

  lemma TwoBytes(x: nat, y: nat, a: nat, b: nat, c: nat)
    requires a == x / 4 && b == 16 * (x % 4) + y / 16 && c == 4 * (y % 16)
    ensures (a * 64 + b) * 64 + c == 4 * (x * 256 + y)
  {
  }

  lemma RestSpells(s: seq<octet>) returns (a: nat, b: nat, c: nat)
    requires 1 <= |s| <= 2
    ensures Spells(Rest(s), s, a, b, c, 0)
  {
    c := 0;
    if |s| == 1 {
      a, b := OneByteSpells(s[0]);
      assert s == [s[0]];
    } else {
      a, b, c := TwoBytesSpell(s[0], s[1]);
      assert s == [s[0], s[1]];
    }
  }

  /** The bytes of the i-th group. */
  function Bytes(s: seq<octet>, i: nat): (r: seq<octet>)
    requires 3 * i < |s|
    ensures 1 <= |r| <= 3
  {
    s[3 * i..Min(3 * i + 3, |s|)]
  }

  function Piece(bytes: seq<octet>): (r: string)
    requires 1 <= |bytes| <= 3
    ensures |r| == 4
  {
    if |bytes| == 3 then Group(bytes[0], bytes[1], bytes[2]) else Rest(bytes)
  }

  lemma PieceSpells(bytes: seq<octet>) returns (a: nat, b: nat, c: nat, d: nat)
    requires 1 <= |bytes| <= 3
    ensures Spells(Piece(bytes), bytes, a, b, c, d)
  {
    if |bytes| == 3 {
      a, b, c, d := GroupSpells(bytes[0], bytes[1], bytes[2]);
    } else {
      a, b, c := RestSpells(bytes);
      d := 0;
    }
  }

  ghost predicate StandsAt(text: string, i: nat, piece: string) {
    4 * i + 4 <= |text| && text[4 * i..4 * i + 4] == piece
  }

  lemma InFront(g: string, t: string)
    requires |g| == 4
    ensures StandsAt(g + t, 0, g)
  {
  }

  lemma Behind(g: string, t: string, i: nat, piece: string)
    requires |g| == 4 && StandsAt(t, i, piece)
    ensures StandsAt(g + t, i + 1, piece)
  {
  }

  lemma FirstPiece(s: seq<octet>)
    requires s != []
    ensures Bytes(s, 0) == if |s| < 3 then s else [s[0], s[1], s[2]]
  {
  }

  lemma Shifted(s: seq<octet>, lo: nat, hi: nat)
    requires 3 <= lo <= hi <= |s|
    ensures s[3..][lo - 3..hi - 3] == s[lo..hi]
  {
  }

  lemma NextPiece(s: seq<octet>, i: nat)
    requires i > 0 && 3 * i < |s|
    ensures Bytes(s, i) == Bytes(s[3..], i - 1)
  {
    Shifted(s, 3 * i, Min(3 * i + 3, |s|));
  }

  lemma LastPieceInText(s: seq<octet>, text: string, col: nat)
    requires Column(col) && IsText(text, s, col, false) && 1 <= |s| < 3
    ensures StandsAt(text, 0, Piece(Bytes(s, 0)))
  {
    FirstPiece(s);
    LastText(s, text, col, false);
    assert text[0..4] == text;
  }

  lemma FirstPieceInText(s: seq<octet>, text: string, col: nat) returns (next: string)
    requires Column(col) && IsText(text, s, col, false) && |s| >= 3
    ensures IsText(next, s[3..], (col + 4) % LINE, false) && text == Group(s[0], s[1], s[2]) + next
    ensures StandsAt(text, 0, Piece(Bytes(s, 0)))
  {
    FirstPiece(s);
    next := NextText(s, text, col, false);
    NoGap(next);
    InFront(Group(s[0], s[1], s[2]), next);
  }

  lemma {:induction false} PieceInText(s: seq<octet>, text: string, col: nat, i: nat)
    requires Column(col) && IsText(text, s, col, false) && 3 * i < |s|
    ensures StandsAt(text, i, Piece(Bytes(s, i)))
    decreases |s|
  {
    if |s| < 3 {
      LastPieceInText(s, text, col);
    } else {
      var next := FirstPieceInText(s, text, col);
      if i > 0 {
        PieceInText(s[3..], next, (col + 4) % LINE, i - 1);
        NextPiece(s, i);
        Behind(Group(s[0], s[1], s[2]), next, i - 1, Piece(Bytes(s, i)));
      }
    }
  }

  lemma Unbroken(s: seq<octet>, nl: bool)
    ensures WithoutBreaks(Encoded(s, nl)) == Text(s, 0, false)
  {
    if nl {
      BreaksRemoved(s, 0, 0);
    } else {
      NoBreakWithoutFlag(s, 0);
      NothingToRemove(Encoded(s, nl));
    }
  }

  lemma PlainLength(n: nat)
    ensures n / 3 * 4 + (if n % 3 != 0 then 4 else 0) == (n + 2) / 3 * 4
  {
  }

  lemma EncodingIsPieces(s: seq<octet>, nl: bool, i: nat, t: string)
    requires 3 * i < |s| && t == WithoutBreaks(Encoded(s, nl))
    ensures |t| == (|s| + 2) / 3 * 4 && StandsAt(t, i, Piece(Bytes(s, i)))
  {
    Unbroken(s, nl);
    TextLength(s, 0, false);
    PlainLength(|s|);
    PieceInText(s, t, 0, i);
  }

  lemma PieceAtSpells(t: string, i: nat, bytes: seq<octet>) returns (a: nat, b: nat, c: nat, d: nat)
    requires 1 <= |bytes| <= 3 && StandsAt(t, i, Piece(bytes))
    ensures Spells(t[4 * i..4 * i + 4], bytes, a, b, c, d)
  {
    a, b, c, d := PieceSpells(bytes);
  }

  /** Apart from its line breaks an encoding is four characters for each three bytes begun, and they spell them. */
  lemma EncodingSpells(s: seq<octet>, nl: bool, t: string, i: nat) returns (a: nat, b: nat, c: nat, d: nat)
    requires 3 * i < |s| && t == WithoutBreaks(Encoded(s, nl))
    ensures |t| == (|s| + 2) / 3 * 4 && 4 * i + 4 <= |t|
    ensures Spells(t[4 * i..4 * i + 4], s[3 * i..Min(3 * i + 3, |s|)], a, b, c, d)
  {
    EncodingIsPieces(s, nl, i, t);
    a, b, c, d := PieceAtSpells(t, i, Bytes(s, i));
  }

  // --- what is decoded --------------------------------------------------------------------------------------

  lemma Unpack1Is(a: octet, b: octet)
    requires a < 64 && b < 64
    ensures Int(Unpack1(a, b)) == (Int(a) * 64 + Int(b)) / 16
  {
    RaisedTwo(a);
    HighPart(b);
    assert (b & 0x30) >> 4 == b >> 4;
    JoinTwo(a << 2, b >> 4);
  }

  lemma Unpack2Is(b: octet, c: octet)
    requires b < 64 && c < 64
    ensures Int(Unpack2(b, c)) == Int(b) % 16 * 16 + Int(c) / 4
  {
    LowFour(b);
    RaisedFour(b & 0x0f);
    assert b << 4 == (b & 0x0f) << 4;
    HighPart(c);
    JoinFour(b << 4, c >> 2);
  }

  lemma Unpack3Is(c: octet, d: octet)
    requires c < 64 && d < 64
    ensures Int(Unpack3(c, d)) == Int(c) % 4 * 64 + Int(d)
  {
    LowTwo(c);
    RaisedSix(c & 0x03);
    assert c << 6 == (c & 0x03) << 6;
    JoinSix(c << 6, d);
  }

  lemma RaisedSix(x: octet)
    requires x < 4
    ensures (x << 6) as int == 64 * (x as int)
  {
  }

  lemma JoinSix(a: octet, b: octet)
    requires a & 0x3f == 0 && b & 0xc0 == 0
    ensures (a | b) as int == a as int + b as int
  {
  }

  /** Four characters at the places a, b, c and d decode to the number that these digits are. */
  lemma ThreeAreTheNumber(t: string, p: nat, a: nat, b: nat, c: nat, d: nat)
    requires p + 3 < |t| && Stands(t[p], a) && Stands(t[p + 1], b) && Stands(t[p + 2], c) && Stands(t[p + 3], d)
    ensures var v := Three(t, p);
      (Int(v[0]) * 256 + Int(v[1])) * 256 + Int(v[2]) == ((a * 64 + b) * 64 + c) * 64 + d
  {
    LookupFindsThePlace(t[p], a);
    LookupFindsThePlace(t[p + 1], b);
    LookupFindsThePlace(t[p + 2], c);
    LookupFindsThePlace(t[p + 3], d);
    Unpacked(Revchar(t[p]), Revchar(t[p + 1]), Revchar(t[p + 2]), Revchar(t[p + 3]));
  }

  lemma Unpacked(a: octet, b: octet, c: octet, d: octet)
    requires Int(a) < 64 && Int(b) < 64 && Int(c) < 64 && Int(d) < 64
    ensures (Int(Unpack1(a, b)) * 256 + Int(Unpack2(b, c))) * 256 + Int(Unpack3(c, d))
         == ((Int(a) * 64 + Int(b)) * 64 + Int(c)) * 64 + Int(d)
    ensures Int(Unpack1(a, b)) == (Int(a) * 64 + Int(b)) / 16
    ensures Int(Unpack1(a, b)) * 256 + Int(Unpack2(b, c)) == ((Int(a) * 64 + Int(b)) * 64 + Int(c)) / 4
  {
    Parts(a, b, c, d);
    FourDigitsAre(Int(a), Int(b), Int(c), Int(d), Int(Unpack1(a, b)), Int(Unpack2(b, c)), Int(Unpack3(c, d)));
  }

  lemma Parts(a: octet, b: octet, c: octet, d: octet)
    requires Int(a) < 64 && Int(b) < 64 && Int(c) < 64 && Int(d) < 64
    ensures Int(Unpack1(a, b)) == (Int(a) * 64 + Int(b)) / 16
    ensures Int(Unpack2(b, c)) == Int(b) % 16 * 16 + Int(c) / 4
    ensures Int(Unpack3(c, d)) == Int(c) % 4 * 64 + Int(d)
  {
    Below64(a);
    Below64(b);
    Below64(c);
    Below64(d);
    Unpack1Is(a, b);
    Unpack2Is(b, c);
    Unpack3Is(c, d);
  }

  lemma FourDigitsAre(a: nat, b: nat, c: nat, d: nat, x: nat, y: nat, z: nat)
    requires a < 64 && b < 64 && c < 64 && d < 64
    requires x == (a * 64 + b) / 16 && y == b % 16 * 16 + c / 4 && z == c % 4 * 64 + d
    ensures (x * 256 + y) * 256 + z == ((a * 64 + b) * 64 + c) * 64 + d
    ensures x * 256 + y == ((a * 64 + b) * 64 + c) / 4
  {
    assert a * 64 + b == x * 16 + b % 16;
    assert c == c / 4 * 4 + c % 4;
  }

  lemma Below64(a: octet)
    requires Int(a) < 64
    ensures a < 64
  {
  }

  /** What two or three characters left over decode to: the bits that a last whole byte needs, and the rest is cut. */
  lemma LeftOverIsTheNumber(t: string, left: nat, a: nat, b: nat, c: nat)
    requires 2 <= left <= 3 && left <= |t| && Stands(t[0], a) && Stands(t[1], b) && (left == 3 ==> Stands(t[2], c))
    ensures var v := LeftOverBytes(t, left);
      && |v| == left - 1
      && (left == 2 ==> Int(v[0]) == (a * 64 + b) / 16)
      && (left == 3 ==> Int(v[0]) * 256 + Int(v[1]) == ((a * 64 + b) * 64 + c) / 4)
  {
    LookupFindsThePlace(t[0], a);
    LookupFindsThePlace(t[1], b);
    if left == 3 {
      LookupFindsThePlace(t[2], c);
      Unpacked(Revchar(t[0]), Revchar(t[1]), Revchar(t[2]), 0);
    } else {
      Unpacked(Revchar(t[0]), Revchar(t[1]), 0, 0);
    }
  }

  lemma ValueOfAlphabet(ch: char)
    requires Value(ch) != ch as int
    ensures Value(ch) < 64 && Letter(Value(ch)) == ch
  {
  }

  /** A character outside the alphabet is taken for its own code, = and the line break among them. */
  lemma OtherCharactersAreTheirCode(ch: char)
    requires ch as int < 256 && forall k :: 0 <= k < 64 ==> ALPHABET[k] != ch
    ensures Revchar(ch) as int == ch as int
  {
    if Value(ch) != ch as int {
      ValueOfAlphabet(ch);
      LetterAt(Value(ch));
    }
    SmallOctet(ch as int);
  }

  function LeftOverBytes(rest: string, left: nat): (r: seq<octet>)
    requires |rest| >= left
  {
    if left == 2 then [Unpack1(Revchar(rest[0]), Revchar(rest[1]))]
    else if left == 3 then
      [Unpack1(Revchar(rest[0]), Revchar(rest[1])), Unpack2(Revchar(rest[1]), Revchar(rest[2]))]
    else []
  }

  /** The bytes of the first `k` groups. */
  function Triples(text: string, k: nat): (r: seq<octet>)
    requires 4 * k <= |text|
    ensures |r| == 3 * k
  {
    if k == 0 then [] else Three(text, 0) + Triples(text[4..], k - 1)
  }

  ghost predicate TripleIs(v: seq<octet>, i: nat, x: seq<octet>) {
    3 * i + 3 <= |v| && v[3 * i..3 * i + 3] == x
  }

  lemma TripleInFront(a: seq<octet>, b: seq<octet>)
    requires |a| == 3
    ensures TripleIs(a + b, 0, a)
  {
  }

  lemma TripleBehind(a: seq<octet>, b: seq<octet>, i: nat, x: seq<octet>)
    requires |a| == 3 && TripleIs(b, i, x)
    ensures TripleIs(a + b, i + 1, x)
  {
  }

  lemma TripleBefore(a: seq<octet>, b: seq<octet>, i: nat, x: seq<octet>)
    requires TripleIs(a, i, x)
    ensures TripleIs(a + b, i, x)
  {
  }

  lemma ThreeShifted(text: string, p: nat)
    requires p + 7 < |text|
    ensures Three(text[4..], p) == Three(text, p + 4)
  {
  }

  ghost predicate AreTriples(v: seq<octet>, text: string, k: nat) {
    forall j :: j == k && 4 * j <= |text| ==> v == Triples(text, j)
  }

  lemma TriplesSplit(v: seq<octet>, text: string, k: nat) returns (next: seq<octet>)
    requires AreTriples(v, text, k) && 0 < 4 * k <= |text|
    ensures AreTriples(next, text[4..], k - 1) && v == Three(text, 0) + next
  {
    assert v == Triples(text, k);
    next := Triples(text[4..], k - 1);
  }

  lemma {:induction false} TripleAt(v: seq<octet>, text: string, k: nat, i: nat, x: seq<octet>)
    requires AreTriples(v, text, k) && 4 * k <= |text| && i < k && x == Three(text, 4 * i)
    ensures TripleIs(v, i, x)
    decreases k
  {
    var next := TriplesSplit(v, text, k);
    if i == 0 {
      TripleInFront(x, next);
    } else {
      ThreeShifted(text, 4 * i - 4);
      TripleAt(next, text[4..], k - 1, i - 1, x);
      TripleBehind(Three(text, 0), next, i - 1, x);
    }
  }

  lemma OneGroup(rest: string, todo: nat, left: nat)
    requires todo > 0 && |rest| >= 4 && rest[0] != '\n'
    ensures DecodeFrom(rest, todo, left) == Prepend(Three(rest, 0), DecodeFrom(rest[4..], todo - 4, left))
  {
  }

  lemma NoGroups(rest: string, left: nat)
    requires |rest| >= left
    ensures DecodeFrom(rest, 0, left) == Some(LeftOverBytes(rest, left))
  {
  }

  /** The decoding of a text of `k` groups and what is left over behind them. */
  function PlainBytes(rest: string, k: nat, left: nat): seq<octet>
    requires 4 * k + left <= |rest|
  {
    Triples(rest, k) + LeftOverBytes(rest[4 * k..], left)
  }

  lemma NoTriples(rest: string, left: nat)
    requires left <= |rest|
    ensures PlainBytes(rest, 0, left) == LeftOverBytes(rest, left)
  {
    assert rest[0..] == rest;
  }

  lemma OneTriple(rest: string, k: nat, left: nat)
    requires k > 0 && 4 * k + left <= |rest|
    ensures PlainBytes(rest, k, left) == Three(rest, 0) + PlainBytes(rest[4..], k - 1, left)
  {
    assert rest[4..][4 * k - 4..] == rest[4 * k..];
    Regrouped(Three(rest, 0), Triples(rest[4..], k - 1), LeftOverBytes(rest[4 * k..], left));
  }

  lemma {:induction false} PlainTextDecodes(rest: string, k: nat, left: nat)
    requires NoBreak(rest) && 4 * k + left <= |rest|
    ensures DecodeFrom(rest, 4 * k, left) == Some(PlainBytes(rest, k, left))
    decreases k
  {
    if k == 0 {
      NoGroups(rest, left);
      NoTriples(rest, left);
    } else {
      OneGroup(rest, 4 * k, left);
      PlainTextDecodes(rest[4..], k - 1, left);
      OneTriple(rest, k, left);
    }
  }

  lemma Regrouped(a: seq<octet>, b: seq<octet>, c: seq<octet>)
    ensures a + (b + c) == (a + b) + c
  {
  }

  /** At most two = are cut off the end, and no other character is. */
  lemma PaddingIsCutOff(t: string)
    requires Decodable(t)
    ensures var n := Stripped(t);
      && |t| - 2 <= n <= |t| && (forall j :: n <= j < |t| ==> t[j] == '=')
      && (n > |t| - 2 && n > 0 ==> t[n - 1] != '=')
  {
  }

  lemma LengthsAgree(t: string)
    requires Decodable(t) && NoBreak(t)
    ensures DecodedLength(t) == Stripped(t) * 3 / 4
    ensures DecodedLength(t) == Stripped(t) / 4 * 3 + (if Stripped(t) % 4 < 2 then 0 else Stripped(t) % 4 - 1)
  {
  }

  lemma PlainBytesAre(t: string, k: nat, left: nat, v: seq<octet>)
    requires 4 * k + left <= |t| && left < 4 && v == PlainBytes(t, k, left)
    ensures |v| == k * 3 + (if left < 2 then 0 else left - 1)
    ensures forall i :: 0 <= i < k ==> TripleIs(v, i, Three(t, 4 * i))
    ensures v[k * 3..] == LeftOverBytes(t[k * 4..], left)
  {
    forall i | 0 <= i < k
      ensures TripleIs(v, i, Three(t, 4 * i))
    {
      TripleAt(Triples(t, k), t, k, i, Three(t, 4 * i));
      TripleBefore(Triples(t, k), LeftOverBytes(t[4 * k..], left), i, Three(t, 4 * i));
    }
  }

  /** A text without line breaks gives three bytes for each four characters in front of the padding, and one or two
      for two or three that are left over: as many as the length-only call says. */
  lemma PlainTextGives(t: string) returns (v: seq<octet>)
    requires Decodable(t) && NoBreak(t)
    ensures Decoded(t) == Some(v) && |v| == DecodedLength(t) == Stripped(t) * 3 / 4
    ensures forall i :: 0 <= i < Stripped(t) / 4 ==> TripleIs(v, i, Three(t, 4 * i))
    ensures v[Stripped(t) / 4 * 3..] == LeftOverBytes(t[Stripped(t) / 4 * 4..], Stripped(t) % 4)
  {
    var n := Stripped(t);
    PlainTextDecodes(t, n / 4, n % 4);
    LengthsAgree(t);
    v := PlainBytes(t, n / 4, n % 4);
    PlainBytesAre(t, n / 4, n % 4, v);
  }
}
